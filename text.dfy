/**
 The three Python string primitives the link parser is built from:
 `str.strip()` with no argument, `str.split(sep)` with a one-character
 separator, and the substring test `sub in s`.
 */
module Text {

  type String = seq<char>

  /** The characters for which Python's `str.isspace()` holds. */
  predicate IsSpace(c: char)
  {
    c == ' ' || c == '\t' || c == '\n' || c == '\r' || c == '\U{0B}' || c == '\U{0C}'
    || ('\U{1C}' <= c <= '\U{1F}') || c == '\U{85}' || c == '\U{A0}' || c == '\U{1680}'
    || ('\U{2000}' <= c <= '\U{200A}') || c == '\U{2028}' || c == '\U{2029}'
    || c == '\U{202F}' || c == '\U{205F}' || c == '\U{3000}'
  }

  /** `s` without its leading characters of the class `ws`. */
  function TrimLeft(s: String, ws: char -> bool): (r: String)
    ensures |r| <= |s|
  {
    if s != [] && ws(s[0]) then TrimLeft(s[1..], ws) else s
  }

  /** `s` without its trailing characters of the class `ws`. */
  function TrimRight(s: String, ws: char -> bool): (r: String)
    ensures |r| <= |s|
  {
    if s != [] && ws(s[|s| - 1]) then TrimRight(s[..|s| - 1], ws) else s
  }

  /** Characters of the class `ws` cut from both ends of `s` (`StripInfix` states the result). */
  function StripBy(s: String, ws: char -> bool): (r: String)
    ensures |r| <= |s|
  {
    TrimRight(TrimLeft(s, ws), ws)
  }

  /** Python's `s.strip()` with no argument: whitespace cut from both ends. */
  function Strip(s: String): (r: String)
    ensures |r| <= |s|
  {
    StripBy(s, IsSpace)
  }

  /** Every character of `s` is of the class `ws`. */
  predicate All(s: String, ws: char -> bool)
  {
    forall i :: 0 <= i < |s| ==> ws(s[i])
  }

  /**
   `TrimLeft` keeps a suffix; what it cuts is of the class, and what it keeps
   does not start with a character of it.
   */
  lemma {:induction false} TrimLeftCut(s: String, ws: char -> bool)
    ensures TrimLeft(s, ws) == s[|s| - |TrimLeft(s, ws)|..]
    ensures All(s[..|s| - |TrimLeft(s, ws)|], ws)
    ensures TrimLeft(s, ws) == [] || !ws(TrimLeft(s, ws)[0])
  {
    if s != [] && ws(s[0]) {
      TrimLeftCut(s[1..], ws);
      var n := |s| - |TrimLeft(s, ws)|;
      assert s[..n] == [s[0]] + s[1..][..n - 1];
    }
  }

  /**
   `TrimRight` keeps a prefix; what it cuts is of the class, and what it
   keeps does not end with a character of it.
   */
  lemma {:induction false} TrimRightCut(s: String, ws: char -> bool)
    ensures TrimRight(s, ws) == s[..|TrimRight(s, ws)|]
    ensures All(s[|TrimRight(s, ws)|..], ws)
    ensures var r := TrimRight(s, ws); r == [] || !ws(r[|r| - 1])
  {
    if s != [] && ws(s[|s| - 1]) {
      var init := s[..|s| - 1];
      TrimRightCut(init, ws);
      assert s[|TrimRight(s, ws)|..] == init[|TrimRight(init, ws)|..] + [s[|s| - 1]];
    }
  }

  /** A trailing character of the class makes no difference to `TrimRight`. */
  lemma TrimRightSpace(s: String, c: char, ws: char -> bool)
    requires ws(c)
    ensures TrimRight(s + [c], ws) == TrimRight(s, ws)
  {
    assert (s + [c])[..|s|] == s;
  }

  /** Stripping a string that has a character of the class only at the very end leaves the rest. */
  lemma StripTrailing(x: String, c: char, ws: char -> bool)
    requires x != [] && !ws(x[0]) && !ws(x[|x| - 1]) && ws(c)
    ensures StripBy(x + [c], ws) == x
  {
    assert (x + [c])[0] == x[0];
    assert TrimLeft(x + [c], ws) == x + [c];
    TrimRightSpace(x, c, ws);
  }

  /**
   What `StripBy` does: `s` is its result with a run of characters of the
   class before it and another after it, and the result neither starts nor
   ends with a character of the class.
   */
  lemma StripInfix(s: String, ws: char -> bool)
    ensures var lo := |s| - |TrimLeft(s, ws)|; var r := StripBy(s, ws);
            && lo + |r| <= |s|
            && s == s[..lo] + r + s[lo + |r|..]
            && All(s[..lo], ws) && All(s[lo + |r|..], ws)
            && (r == [] || (!ws(r[0]) && !ws(r[|r| - 1])))
  {
    var t := TrimLeft(s, ws);
    var r := TrimRight(t, ws);
    var lo := |s| - |t|;
    TrimLeftCut(s, ws);
    TrimRightCut(t, ws);
    Infix(s, lo, r, t);
  }

  /** `s` split around the infix `r` that starts at `lo` and begins the suffix `t`. */
  lemma Infix(s: String, lo: nat, r: String, t: String)
    requires lo <= |s| && t == s[lo..] && |r| <= |t| && r == t[..|r|]
    ensures lo + |r| <= |s| && s == s[..lo] + r + s[lo + |r|..]
    ensures s[lo + |r|..] == t[|r|..]
    ensures r != [] ==> r[0] == t[0]
  {
    assert s == s[..lo] + t;
    assert t == r + t[|r|..];
  }

  /** Number of occurrences of `c` in `s`. */
  function Occurrences(s: String, c: char): (n: nat)
  {
    if s == [] then 0 else (if s[0] == c then 1 else 0) + Occurrences(s[1..], c)
  }

  /** The pieces of `parts` glued back together with `sep` between neighbours. */
  function Join(parts: seq<String>, sep: char): (r: String)
    requires |parts| >= 1
  {
    if |parts| == 1 then parts[0] else parts[0] + [sep] + Join(parts[1..], sep)
  }

  /**
   Python's `s.split(sep)`: one more piece than there are separators (so
   `"".split(sep) == [""]`); `SplitPieces` states what the pieces are.
   */
  function Split(s: String, sep: char): (r: seq<String>)
    ensures |r| == Occurrences(s, sep) + 1
  {
    if s == [] then [[]]
    else
      var rest := Split(s[1..], sep);
      if s[0] == sep then [[]] + rest
      else [[s[0]] + rest[0]] + rest[1..]
  }

  /** The pieces of a split are `sep`-free and join back to the string split. */
  lemma {:induction false} SplitPieces(s: String, sep: char)
    ensures forall k :: 0 <= k < |Split(s, sep)| ==> sep !in Split(s, sep)[k]
    ensures Join(Split(s, sep), sep) == s
  {
    if s != [] {
      var rest := Split(s[1..], sep);
      SplitPieces(s[1..], sep);
      if s[0] == sep {
        assert ([[]] + rest)[1..] == rest;
      } else {
        var r := [[s[0]] + rest[0]] + rest[1..];
        assert r[1..] == rest[1..];
        assert [s[0]] + s[1..] == s;
        forall k | 0 <= k < |r| ensures sep !in r[k] {
          if k > 0 {
            assert r[k] == rest[k];
          }
        }
      }
    }
  }

  /** Gluing with `sep`, then splitting on `sep` again, gives back `sep`-free pieces unchanged. */
  lemma {:induction false} SplitJoin(parts: seq<String>, sep: char)
    requires |parts| >= 1
    requires forall k :: 0 <= k < |parts| ==> sep !in parts[k]
    ensures Split(Join(parts, sep), sep) == parts
  {
    if |parts| == 1 {
      SplitSepFree(parts[0], sep);
    } else {
      SplitJoin(parts[1..], sep);
      SplitAfterPiece(parts[0], Join(parts[1..], sep), sep);
      assert [parts[0]] + parts[1..] == parts;
    }
  }

  /** A `sep`-free string is a single piece. */
  lemma {:induction false} SplitSepFree(p: String, sep: char)
    requires sep !in p
    ensures Split(p, sep) == [p]
  {
    if p != [] {
      SplitSepFree(p[1..], sep);
      assert [p[0]] + p[1..] == p;
    }
  }

  /** Splitting `p + [sep] + t` for a `sep`-free `p` yields `p` followed by the pieces of `t`. */
  lemma {:induction false} SplitAfterPiece(p: String, t: String, sep: char)
    requires sep !in p
    ensures Split(p + [sep] + t, sep) == [p] + Split(t, sep)
  {
    var s := p + [sep] + t;
    if p == [] {
      assert s[1..] == t;
    } else {
      assert s[1..] == p[1..] + [sep] + t;
      SplitAfterPiece(p[1..], t, sep);
      assert [p[0]] + p[1..] == p;
    }
  }

  /** Python's `prefix == s[:len(prefix)]`. */
  predicate StartsWith(s: String, prefix: String)
  {
    |prefix| <= |s| && s[..|prefix|] == prefix
  }

  /** Python's `sub in s`. */
  predicate Contains(s: String, sub: String)
    decreases |s|
  {
    StartsWith(s, sub) || (s != [] && Contains(s[1..], sub))
  }
}
