/** JavaScript's `String.prototype.trim`, which the form handlers apply to
    every text input before using it. */
module Strings {

  /** The characters `trim` removes: ECMAScript's WhiteSpace (tab, vertical
      tab, form feed, space, no-break space, byte order mark and the other
      space separators) and LineTerminator (line feed, carriage return, line
      and paragraph separators). */
  predicate IsSpace(c: char)
  {
    c == '\t' || c == '\U{B}' || c == '\U{C}' || c == ' ' || c == '\U{A0}' || c == '\U{FEFF}'
    || c == '\n' || c == '\r' || c == '\U{2028}' || c == '\U{2029}'
    || c == '\U{1680}' || ('\U{2000}' <= c <= '\U{200A}') || c == '\U{202F}' || c == '\U{205F}' || c == '\U{3000}'
  }

  predicate AllSpace(s: string)
  {
    forall i :: 0 <= i < |s| ==> IsSpace(s[i])
  }

  /** Neither end of `s` is a space character. */
  predicate IsTrimmed(s: string)
  {
    s == [] || (!IsSpace(s[0]) && !IsSpace(s[|s| - 1]))
  }

  /** `s` without its leading spaces. */
  function TrimStart(s: string): string
  {
    if s != [] && IsSpace(s[0]) then TrimStart(s[1..]) else s
  }

  /** `s` without its trailing spaces. */
  function TrimEnd(s: string): string
  {
    if s != [] && IsSpace(s[|s| - 1]) then TrimEnd(s[..|s| - 1]) else s
  }

  /** `TrimStart` keeps a suffix of `s` that does not start with a space and
      drops only spaces. */
  lemma {:induction false} TrimStartShape(s: string)
    ensures var r := TrimStart(s);
      && |r| <= |s|
      && (forall i :: 0 <= i < |r| ==> r[i] == s[|s| - |r| + i])
      && (forall i :: 0 <= i < |s| - |r| ==> IsSpace(s[i]))
      && (r == [] || !IsSpace(r[0]))
  {
    if s != [] && IsSpace(s[0]) {
      var t := s[1..];
      TrimStartShape(t);
      var r := TrimStart(t);
      assert TrimStart(s) == r;
      forall i | 0 <= i < |r| ensures r[i] == s[|s| - |r| + i] {
        assert r[i] == t[|t| - |r| + i];
      }
      forall i | 0 < i < |s| - |r| ensures IsSpace(s[i]) {
        assert s[i] == t[i - 1];
      }
    }
  }

  /** `TrimEnd` keeps a prefix of `s` that does not end with a space and drops
      only spaces. */
  lemma {:induction false} TrimEndShape(s: string)
    ensures var r := TrimEnd(s);
      && |r| <= |s|
      && (forall i :: 0 <= i < |r| ==> r[i] == s[i])
      && (forall i :: |r| <= i < |s| ==> IsSpace(s[i]))
      && (r == [] || !IsSpace(r[|r| - 1]))
  {
    if s != [] && IsSpace(s[|s| - 1]) {
      var t := s[..|s| - 1];
      TrimEndShape(t);
      assert forall i :: 0 <= i < |t| ==> t[i] == s[i];
    }
  }

  /** `s.trim()`: the input with the spaces at both ends removed. It is empty
      exactly when the input holds nothing but spaces. */
  function Trim(s: string): (r: string)
    ensures |r| <= |s|
    ensures IsTrimmed(r)
    ensures r == [] <==> AllSpace(s)
  {
    var t := TrimStart(s);
    var r := TrimEnd(t);
    TrimStartShape(s);
    TrimEndShape(t);
    assert r != [] ==> r[0] == t[0];
    assert r == [] ==> t == [] && AllSpace(s);
    r
  }

  /** The result of `trim` sits in the input right after the leading spaces,
      and only spaces follow it. */
  lemma TrimLocated(s: string)
    ensures var r, lo := Trim(s), |s| - |TrimStart(s)|;
      && 0 <= lo && lo + |r| <= |s|
      && (forall i :: 0 <= i < |r| ==> r[i] == s[lo + i])
      && (forall i :: 0 <= i < lo ==> IsSpace(s[i]))
      && (forall i :: lo + |r| <= i < |s| ==> IsSpace(s[i]))
  {
    var t := TrimStart(s);
    TrimStartShape(s);
    TrimEndShape(t);
  }

  /** The input splits into the spaces `trim` drops in front, the result, and
      the spaces it drops behind. */
  lemma TrimSplits(s: string)
    ensures exists lo, hi :: 0 <= lo <= hi <= |s| && s[lo..hi] == Trim(s)
              && AllSpace(s[..lo]) && AllSpace(s[hi..])
  {
    var r := Trim(s);
    var lo := |s| - |TrimStart(s)|;
    var hi := lo + |r|;
    TrimLocated(s);
    var mid, front, back := s[lo..hi], s[..lo], s[hi..];
    assert mid == r by {
      forall i | 0 <= i < |r| ensures mid[i] == r[i] {
        assert mid[i] == s[lo + i];
      }
    }
    assert AllSpace(front) by {
      forall i | 0 <= i < |front| ensures IsSpace(front[i]) {
        assert front[i] == s[i];
      }
    }
    assert AllSpace(back) by {
      forall i | 0 <= i < |back| ensures IsSpace(back[i]) {
        assert back[i] == s[hi + i];
      }
    }
    assert 0 <= lo <= hi <= |s| && s[lo..hi] == r && AllSpace(s[..lo]) && AllSpace(s[hi..]);
  }

  /** Trimming a trimmed string changes nothing, so `trim` is idempotent. */
  lemma TrimTrimmed(s: string)
    requires IsTrimmed(s)
    ensures Trim(s) == s
  {
  }

  lemma TrimIdempotent(s: string)
    ensures Trim(Trim(s)) == Trim(s)
  {
    TrimTrimmed(Trim(s));
  }
}
