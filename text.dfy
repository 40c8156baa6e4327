/**
 * The .NET string operations the key handling and the update check rely on:
 * Char.IsWhiteSpace, String.Trim and upper-casing.
 */
module Text {

  /** .NET's Char.IsWhiteSpace: the Unicode space separators, line and paragraph separators, U+0009-U+000D and U+0085. */
  predicate IsWhiteSpace(c: char) {
    || '\U{0009}' <= c <= '\U{000D}' || c == '\U{0020}' || c == '\U{0085}' || c == '\U{00A0}'
    || c == '\U{1680}' || '\U{2000}' <= c <= '\U{200A}' || c == '\U{2028}' || c == '\U{2029}'
    || c == '\U{202F}' || c == '\U{205F}' || c == '\U{3000}'
  }

  predicate IsNullOrWhiteSpace(s: string) {
    forall i | 0 <= i < |s| :: IsWhiteSpace(s[i])
  }

  function TrimStart(s: string): (r: string)
    ensures |r| <= |s| && r == s[|s| - |r|..]
    ensures r == [] || !IsWhiteSpace(r[0])
    ensures forall i | 0 <= i < |s| - |r| :: IsWhiteSpace(s[i])
  {
    if |s| > 0 && IsWhiteSpace(s[0]) then TrimStart(s[1..]) else s
  }

  function TrimEnd(s: string): (r: string)
    ensures |r| <= |s| && r == s[..|r|]
    ensures r == [] || !IsWhiteSpace(r[|r| - 1])
    ensures forall i | |r| <= i < |s| :: IsWhiteSpace(s[i])
  {
    if |s| > 0 && IsWhiteSpace(s[|s| - 1]) then TrimEnd(s[..|s| - 1]) else s
  }

  /** String.Trim: leading and trailing white space removed. */
  function Trim(s: string): (r: string)
    ensures r == [] || (!IsWhiteSpace(r[0]) && !IsWhiteSpace(r[|r| - 1]))
    ensures |r| <= |s|
    ensures r == [] <==> IsNullOrWhiteSpace(s)
    ensures |r| <= |TrimStart(s)| && r == TrimStart(s)[..|r|] && IsNullOrWhiteSpace(TrimStart(s)[|r|..])
  {
    TrimEndRest(TrimStart(s));
    TrimEnd(TrimStart(s))
  }

  /** What TrimEnd drops is all white space. */
  lemma TrimEndRest(t: string)
    ensures var r := TrimEnd(t); IsNullOrWhiteSpace(t[|r|..])
  {
    var r := TrimEnd(t);
    assert forall i | 0 <= i < |t| - |r| :: t[|r|..][i] == t[|r| + i];
  }

  /** The number of leading white-space characters: what TrimStart removes. */
  function Lead(s: string): (n: nat)
    ensures n <= |s| && TrimStart(s) == s[n..]
    ensures IsNullOrWhiteSpace(s[..n])
  {
    var n := |s| - |TrimStart(s)|;
    assert forall i | 0 <= i < n :: s[..n][i] == s[i];
    n
  }

  /** Where Trim's result sits in its input: after the leading white space, followed by white space only. */
  lemma TrimSpan(s: string)
    ensures Lead(s) + |Trim(s)| <= |s|
    ensures IsNullOrWhiteSpace(s[Lead(s) + |Trim(s)|..])
    ensures forall i | 0 <= i < |Trim(s)| :: Trim(s)[i] == s[Lead(s) + i]
  {
    var t := TrimStart(s);
    var r := Trim(s);
    assert s[Lead(s) + |r|..] == t[|r|..];
  }

  /** Upper-casing of the ASCII letters; other characters are kept. */
  function UpperChar(c: char): char {
    if 'a' <= c <= 'z' then (c as int - 32) as char else c
  }

  function ToUpper(s: string): (r: string)
    ensures |r| == |s| && forall i | 0 <= i < |s| :: r[i] == UpperChar(s[i])
  {
    seq(|s|, i requires 0 <= i < |s| => UpperChar(s[i]))
  }

  // ---------------------------------------------------------------------------
  // Properties
  // ---------------------------------------------------------------------------

  lemma {:induction false} TrimStartOfWhiteSpace(w: string, s: string)
    requires IsNullOrWhiteSpace(w)
    ensures TrimStart(w + s) == TrimStart(s)
  {
    if w != [] {
      assert (w + s)[1..] == w[1..] + s;
      TrimStartOfWhiteSpace(w[1..], s);
    } else {
      assert w + s == s;
    }
  }

  lemma {:induction false} TrimEndOfWhiteSpace(s: string, w: string)
    requires IsNullOrWhiteSpace(w)
    ensures TrimEnd(s + w) == TrimEnd(s)
  {
    if w != [] {
      assert (s + w)[..|s + w| - 1] == s + w[..|w| - 1];
      TrimEndOfWhiteSpace(s, w[..|w| - 1]);
    } else {
      assert s + w == s;
    }
  }

  /** Trimming the start of key + w only looks at key, unless key is blank. */
  lemma {:induction false} TrimStartAppend(key: string, w: string)
    requires IsNullOrWhiteSpace(w)
    ensures TrimEnd(TrimStart(key + w)) == TrimEnd(TrimStart(key) + w)
  {
    if key == [] {
      assert key + w == w;
      TrimStartOfWhiteSpace(w, []);
      assert w + [] == w;
      TrimEndOfWhiteSpace([], w);
      assert [] + w == w;
      TrimEndOfWhiteSpace([], []);
    } else if IsWhiteSpace(key[0]) {
      assert (key + w)[1..] == key[1..] + w;
      TrimStartAppend(key[1..], w);
    } else {
      assert (key + w)[0] == key[0];
    }
  }

  /** White space on either side never changes Trim. */
  lemma TrimPadding(w1: string, s: string, w2: string)
    requires IsNullOrWhiteSpace(w1) && IsNullOrWhiteSpace(w2)
    ensures Trim(w1 + s + w2) == Trim(s)
  {
    assert w1 + s + w2 == w1 + (s + w2);
    TrimStartOfWhiteSpace(w1, s + w2);
    assert TrimStart(w1 + s + w2) == TrimStart(s + w2);
    TrimStartAppend(s, w2);
    assert TrimEnd(TrimStart(s + w2)) == TrimEnd(TrimStart(s) + w2);
    TrimEndOfWhiteSpace(TrimStart(s), w2);
  }

  lemma ToUpperIdempotent(s: string)
    ensures ToUpper(ToUpper(s)) == ToUpper(s)
  {
  }

  /** Upper-casing never creates or removes white space, so trimming commutes with it. */
  lemma {:induction false} TrimUpper(s: string)
    ensures Trim(ToUpper(s)) == ToUpper(Trim(s))
  {
    TrimStartUpper(s);
    TrimEndUpper(TrimStart(s));
  }

  lemma {:induction false} TrimStartUpper(s: string)
    ensures TrimStart(ToUpper(s)) == ToUpper(TrimStart(s))
  {
    if |s| > 0 {
      UpperKeepsWhiteSpace(s[0]);
      if IsWhiteSpace(s[0]) {
        assert ToUpper(s)[1..] == ToUpper(s[1..]);
        TrimStartUpper(s[1..]);
      }
    }
  }

  /** Upper-casing maps white space to itself and nothing else to white space. */
  lemma UpperKeepsWhiteSpace(c: char)
    ensures IsWhiteSpace(UpperChar(c)) <==> IsWhiteSpace(c)
  {
  }

  lemma {:induction false} TrimEndUpper(s: string)
    ensures TrimEnd(ToUpper(s)) == ToUpper(TrimEnd(s))
  {
    if |s| > 0 {
      UpperKeepsWhiteSpace(s[|s| - 1]);
      assert ToUpper(s)[|ToUpper(s)| - 1] == UpperChar(s[|s| - 1]);
      if IsWhiteSpace(s[|s| - 1]) {
        assert ToUpper(s)[..|s| - 1] == ToUpper(s[..|s| - 1]);
        TrimEndUpper(s[..|s| - 1]);
      }
    }
  }

  lemma {:induction false} TrimIdempotent(s: string)
    ensures Trim(Trim(s)) == Trim(s)
  {
    var t := TrimStart(s);
    var r := TrimEnd(t);
    if r == [] {
      assert TrimStart(r) == r;
    } else {
      assert r[0] == t[0];
      assert TrimStart(r) == r;
    }
    assert TrimEnd(r) == r;
  }
}
