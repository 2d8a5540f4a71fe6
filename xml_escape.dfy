/**
 * `escapeXml`, the helper both the older tracer's XML printer and the extra
 * writers pass template names through: each of the five XML special
 * characters becomes its predefined entity and every other character is
 * copied in order.
 */
module XmlEscape {

  /** The characters `escapeXml` replaces. */
  predicate Special(c: char)
  {
    c == '<' || c == '>' || c == '"' || c == '\'' || c == '&'
  }

  /** The entity written for a special character, the character itself
      otherwise. */
  function Entity(c: char): (r: string)
    ensures Special(c) ==> |r| >= 4 && r[0] == '&' && r[|r| - 1] == ';'
    ensures !Special(c) ==> r == [c]
  {
    match c
    case '<' => "&lt;"
    case '>' => "&gt;"
    case '\'' => "&apos;"
    case '"' => "&quot;"
    case '&' => "&amp;"
    case _ => [c]
  }

  /** The escaped text: the characters' entities, in order. */
  function Escape(s: string): string
  {
    if s == [] then [] else Entity(s[0]) + Escape(s[1..])
  }

  /** The escaped text holds no `<`, `>`, quote or apostrophe, so it can
      sit in an attribute value. */
  lemma {:induction false} EscapeSafe(s: string)
    ensures forall k | 0 <= k < |Escape(s)| :: Escape(s)[k] !in {'<', '>', '"', '\''}
  {
    if s != [] {
      EscapeSafe(s[1..]);
      var e := Entity(s[0]);
      assert Escape(s) == e + Escape(s[1..]);
      forall k | 0 <= k < |Escape(s)|
        ensures Escape(s)[k] !in {'<', '>', '"', '\''}
      {
        if k >= |e| {
          assert Escape(s)[k] == Escape(s[1..])[k - |e|];
        }
      }
    }
  }

  /** Escaping works character by character. */
  lemma {:induction false} EscapeAppend(a: string, b: string)
    ensures Escape(a + b) == Escape(a) + Escape(b)
  {
    if a == [] {
      assert a + b == b;
    } else {
      assert (a + b)[0] == a[0] && (a + b)[1..] == a[1..] + b;
      EscapeAppend(a[1..], b);
    }
  }

  /** A text without special characters is returned unchanged. */
  lemma {:induction false} EscapePlain(s: string)
    requires forall k | 0 <= k < |s| :: !Special(s[k])
    ensures Escape(s) == s
  {
    if s != [] {
      EscapePlain(s[1..]);
    }
  }

  /** The characters an escape adds on top of the one it replaces. */
  function Extra(c: char): nat
  {
    if c == '<' || c == '>' then 3
    else if c == '&' then 4
    else if c == '\'' || c == '"' then 5
    else 0
  }

  function ExtraOf(s: string): nat
  {
    if s == [] then 0 else Extra(s[0]) + ExtraOf(s[1..])
  }

  /** The result is 3 longer per `<` or `>`, 4 per `&` and 5 per quote or
      apostrophe. */
  lemma {:induction false} EscapeLength(s: string)
    ensures |Escape(s)| == |s| + ExtraOf(s)
  {
    if s != [] {
      EscapeLength(s[1..]);
    }
  }

  /** Reading the entities back: the inverse of `Escape`. */
  function Unescape(t: string): string
    decreases |t|
  {
    if t == [] then []
    else if |t| >= 4 && t[..4] == "&lt;" then "<" + Unescape(t[4..])
    else if |t| >= 4 && t[..4] == "&gt;" then ">" + Unescape(t[4..])
    else if |t| >= 5 && t[..5] == "&amp;" then "&" + Unescape(t[5..])
    else if |t| >= 6 && t[..6] == "&apos;" then "'" + Unescape(t[6..])
    else if |t| >= 6 && t[..6] == "&quot;" then "\"" + Unescape(t[6..])
    else [t[0]] + Unescape(t[1..])
  }

  lemma UnescapeEntity(c: char, rest: string)
    ensures Unescape(Entity(c) + rest) == [c] + Unescape(rest)
  {
    var t := Entity(c) + rest;
    if c == '<' {
      assert Unescape(t) == "<" + Unescape(rest) by {
        assert t[..4] == "&lt;" && t[4..] == rest;
      }
    } else if c == '>' {
      assert Unescape(t) == ">" + Unescape(rest) by {
        assert t[..4] == "&gt;" && t[4..] == rest;
        assert t[..4] != "&lt;" by { assert t[1] == 'g'; }
      }
    } else if c == '&' {
      assert Unescape(t) == "&" + Unescape(rest) by {
        assert t[..5] == "&amp;" && t[5..] == rest;
        assert t[..4] != "&lt;" && t[..4] != "&gt;" by { assert t[1] == 'a'; }
      }
    } else if c == '\'' {
      assert Unescape(t) == "'" + Unescape(rest) by {
        assert t[..6] == "&apos;" && t[6..] == rest;
        assert t[..4] != "&lt;" && t[..4] != "&gt;" && t[..5] != "&amp;" by { assert t[1] == 'a' && t[2] == 'p'; }
      }
    } else if c == '"' {
      assert Unescape(t) == "\"" + Unescape(rest) by {
        assert t[..6] == "&quot;" && t[6..] == rest;
        assert t[..4] != "&lt;" && t[..4] != "&gt;" && t[..5] != "&amp;" && t[..6] != "&apos;" by { assert t[1] == 'q'; }
      }
    } else {
      UnescapePlainChar(c, rest);
    }
  }

  /** A character that starts no entity is read back as itself. */
  lemma UnescapePlainChar(c: char, rest: string)
    requires c != '&'
    ensures Unescape([c] + rest) == [c] + Unescape(rest)
  {
    var t := [c] + rest;
    assert t[0] == c && t[1..] == rest;
    assert |t| >= 4 ==> t[..4][0] != '&';
    assert |t| >= 5 ==> t[..5][0] != '&';
    assert |t| >= 6 ==> t[..6][0] != '&';
  }

  /** The escaping is exact: nothing is lost, so the original text can be
      read back from the escaped one. */
  lemma {:induction false} UnescapeEscape(s: string)
    ensures Unescape(Escape(s)) == s
  {
    if s != [] {
      UnescapeEntity(s[0], Escape(s[1..]));
      UnescapeEscape(s[1..]);
    }
  }

  /** Appending a plain text to what was escaped copies it. */
  lemma EscapeThenPlain(a: string, plain: string)
    requires forall k | 0 <= k < |plain| :: !Special(plain[k])
    ensures Escape(a + plain) == Escape(a) + plain
  {
    EscapePlain(plain);
    EscapeAppend(a, plain);
  }

  /** The escaped prefix grows by the plain run since `pos`. */
  lemma EscapeRun(input: string, pos: nat, i: nat)
    requires pos <= i <= |input|
    requires forall k | pos <= k < i :: !Special(input[k])
    ensures Escape(input[..i]) == Escape(input[..pos]) + input[pos..i]
  {
    assert input[..pos] + input[pos..i] == input[..i];
    EscapeThenPlain(input[..pos], input[pos..i]);
  }

  /** ... and then by the entity of the special character that ends it. */
  lemma EscapeRunThen(input: string, pos: nat, i: nat)
    requires pos <= i < |input|
    requires forall k | pos <= k < i :: !Special(input[k])
    ensures Escape(input[..i + 1]) == Escape(input[..pos]) + input[pos..i] + Entity(input[i])
  {
    EscapeRun(input, pos, i);
    EscapeOne(input[..i], input[i]);
    assert input[..i] + [input[i]] == input[..i + 1];
  }

  /** Escaping one more character appends its entity. */
  lemma EscapeOne(a: string, c: char)
    ensures Escape(a + [c]) == Escape(a) + Entity(c)
  {
    EscapeAppend(a, [c]);
    assert Escape([c]) == Entity(c) + Escape([]);
  }

  /** `escapeXml`: the plain run since the last special character is copied
      when the next special character (or the end) is reached. */
  method EscapeXml(input: string) returns (result: string)
    ensures result == Escape(input)
  {
    result := [];
    var i, pos := 0, 0;
    while i < |input|
      invariant 0 <= pos <= i <= |input|
      invariant result == Escape(input[..pos])
      invariant forall k | pos <= k < i :: !Special(input[k])
    {
      if Special(input[i]) {
        EscapeRunThen(input, pos, i);
        result := result + input[pos..i];
        pos := i + 1;
        result := result + Entity(input[i]);  // the switch on the character
      }
      i := i + 1;
    }
    EscapeRun(input, pos, i);
    assert input[..i] == input;
    result := result + input[pos..i];
  }
}
