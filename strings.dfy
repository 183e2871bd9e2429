/** Python string operations used by the layout engine: `str.strip()` and the
    space-joining of table cells. */
module Strings {

  /** Python's `str.isspace()` for a single code point. */
  predicate IsSpace(c: char) {
    var n := c as int;
    || (9 <= n <= 13) || (28 <= n <= 32) || n == 0x85 || n == 0xA0 || n == 0x1680
    || (0x2000 <= n <= 0x200A) || n == 0x2028 || n == 0x2029 || n == 0x202F
    || n == 0x205F || n == 0x3000
  }

  predicate AllSpace(s: string) {
    forall i :: 0 <= i < |s| ==> IsSpace(s[i])
  }

  /** `s.lstrip()`: drops whitespace from the front. */
  function TrimStart(s: string): (r: string)
    ensures |r| <= |s|
  {
    if s != [] && IsSpace(s[0]) then TrimStart(s[1..]) else s
  }

  /** `s.rstrip()`: drops whitespace from the back. */
  function TrimEnd(s: string): (r: string)
    ensures |r| <= |s|
  {
    if s != [] && IsSpace(s[|s| - 1]) then TrimEnd(s[..|s| - 1]) else s
  }

  /** `lstrip` leaves the longest suffix that does not start with whitespace. */
  lemma TrimStartSpec(s: string)
    ensures TrimStart(s) == s[|s| - |TrimStart(s)|..]
    ensures AllSpace(s[..|s| - |TrimStart(s)|])
    ensures TrimStart(s) != [] ==> !IsSpace(TrimStart(s)[0])
  {
    TrimStartSuffix(s);
    TrimStartDropsSpace(s);
    TrimStartFirst(s);
  }

  lemma {:induction false} TrimStartSuffix(s: string)
    ensures TrimStart(s) == s[|s| - |TrimStart(s)|..]
  {
    if s != [] && IsSpace(s[0]) {
      var t := s[1..];
      TrimStartSuffix(t);
      assert t[|t| - |TrimStart(t)|..] == s[|s| - |TrimStart(t)|..];
    }
  }

  lemma {:induction false} TrimStartDropsSpace(s: string)
    ensures AllSpace(s[..|s| - |TrimStart(s)|])
  {
    if s != [] && IsSpace(s[0]) {
      var t := s[1..];
      var n := |TrimStart(t)|;
      TrimStartDropsSpace(t);
      assert s[..|s| - n] == [s[0]] + t[..|t| - n];
      AllSpaceConcat([s[0]], t[..|t| - n]);
    }
  }

  lemma {:induction false} TrimStartFirst(s: string)
    ensures TrimStart(s) != [] ==> !IsSpace(TrimStart(s)[0])
  {
    if s != [] && IsSpace(s[0]) {
      TrimStartFirst(s[1..]);
    }
  }

  /** `rstrip` leaves the longest prefix that does not end with whitespace. */
  lemma TrimEndSpec(s: string)
    ensures TrimEnd(s) == s[..|TrimEnd(s)|]
    ensures AllSpace(s[|TrimEnd(s)|..])
    ensures TrimEnd(s) != [] ==> !IsSpace(TrimEnd(s)[|TrimEnd(s)| - 1])
  {
    TrimEndPrefix(s);
    TrimEndDropsSpace(s);
    TrimEndLast(s);
  }

  lemma {:induction false} TrimEndPrefix(s: string)
    ensures TrimEnd(s) == s[..|TrimEnd(s)|]
  {
    if s != [] && IsSpace(s[|s| - 1]) {
      var t := s[..|s| - 1];
      TrimEndPrefix(t);
      assert t[..|TrimEnd(t)|] == s[..|TrimEnd(t)|];
    }
  }

  lemma {:induction false} TrimEndDropsSpace(s: string)
    ensures AllSpace(s[|TrimEnd(s)|..])
  {
    if s != [] && IsSpace(s[|s| - 1]) {
      var t := s[..|s| - 1];
      var n := |TrimEnd(t)|;
      TrimEndDropsSpace(t);
      assert s[n..] == t[n..] + [s[|s| - 1]];
      AllSpaceConcat(t[n..], [s[|s| - 1]]);
    }
  }

  lemma {:induction false} TrimEndLast(s: string)
    ensures TrimEnd(s) != [] ==> !IsSpace(TrimEnd(s)[|TrimEnd(s)| - 1])
  {
    if s != [] && IsSpace(s[|s| - 1]) {
      TrimEndLast(s[..|s| - 1]);
    }
  }

  lemma AllSpaceConcat(a: string, b: string)
    requires AllSpace(a) && AllSpace(b)
    ensures AllSpace(a + b)
  {
    forall k | 0 <= k < |a + b| ensures IsSpace((a + b)[k]) {
      if k < |a| { assert (a + b)[k] == a[k]; } else { assert (a + b)[k] == b[k - |a|]; }
    }
  }

  /** `s.strip()`: `s` without its leading and trailing whitespace. */
  function Strip(s: string): (r: string)
    ensures |r| <= |s|
  {
    TrimEnd(TrimStart(s))
  }

  /** The stripped string sits in `s` right after the leading whitespace. */
  lemma StripAt(s: string)
    ensures Strip(s) == s[|s| - |TrimStart(s)|..|s| - |TrimStart(s)| + |Strip(s)|]
    ensures AllSpace(s[..|s| - |TrimStart(s)|])
    ensures AllSpace(s[|s| - |TrimStart(s)| + |Strip(s)|..])
  {
    var t := TrimStart(s);
    var r := TrimEnd(t);
    var i := |s| - |t|;
    TrimStartSuffix(s);
    TrimStartDropsSpace(s);
    TrimEndPrefix(t);
    TrimEndDropsSpace(t);
    assert s[i..][..|r|] == s[i..i + |r|];
    assert s[i + |r|..] == t[|r|..];
  }

  /** A non-empty stripped string neither starts nor ends with whitespace. */
  lemma StripEnds(s: string)
    ensures Strip(s) != [] ==> !IsSpace(Strip(s)[0]) && !IsSpace(Strip(s)[|Strip(s)| - 1])
  {
    var t := TrimStart(s);
    var r := TrimEnd(t);
    TrimStartSuffix(s);
    TrimStartFirst(s);
    TrimEndPrefix(t);
    TrimEndLast(t);
    if r != [] {
      assert t[0] == r[0];
    }
  }

  /** What `strip` removes is whitespace at both ends and nothing else: the result
      is a slice of `s` with only whitespace before and after it. */
  lemma StripIsTrimmedSlice(s: string)
    ensures exists i :: 0 <= i <= |s| - |Strip(s)| && Strip(s) == s[i..i + |Strip(s)|]
                        && AllSpace(s[..i]) && AllSpace(s[i + |Strip(s)|..])
    ensures Strip(s) != [] ==> !IsSpace(Strip(s)[0]) && !IsSpace(Strip(s)[|Strip(s)| - 1])
  {
    StripAt(s);
    StripEnds(s);
    var i := |s| - |TrimStart(s)|;
    assert 0 <= i <= |s| - |Strip(s)|;
  }

  /** The truth value of `s.strip()` in Python: the string holds a non-whitespace character. */
  lemma StripEmptyIffBlank(s: string)
    ensures Strip(s) == [] <==> AllSpace(s)
  {
    var r := Strip(s);
    var i := |s| - |TrimStart(s)|;
    StripAt(s);
    StripEnds(s);
    if r == [] {
      forall k | 0 <= k < |s| ensures IsSpace(s[k]) {
        if k < i { assert s[k] == s[..i][k]; } else { assert s[k] == s[i..][k - i]; }
      }
    } else {
      assert s[i] == r[0];
    }
  }

  /** Stripping twice strips nothing more. */
  lemma StripIdempotent(s: string)
    ensures Strip(Strip(s)) == Strip(s)
  {
    var r := Strip(s);
    StripIsTrimmedSlice(s);
    if r != [] {
      assert !IsSpace(r[0]);
      assert TrimStart(r) == r;
      assert !IsSpace(r[|r| - 1]);
      assert TrimEnd(r) == r;
    }
  }

  /** Appending text `t` to a table cell: one separating space when the cell is
      already non-empty, none otherwise. */
  function JoinCell(cell: string, t: string): string {
    if cell != [] then cell + " " + t else t
  }

  /** The cell obtained by appending every text of `texts` in order to an empty cell. */
  function JoinCells(texts: seq<string>): string {
    if texts == [] then "" else JoinCell(JoinCells(texts[..|texts| - 1]), texts[|texts| - 1])
  }

  /** Python's `' '.join(texts)`. */
  function SpaceJoin(texts: seq<string>): string {
    if texts == [] then ""
    else if |texts| == 1 then texts[0]
    else SpaceJoin(texts[..|texts| - 1]) + " " + texts[|texts| - 1]
  }

  /** When every appended text is non-empty, the cell is exactly the texts joined
      by single spaces. */
  lemma {:induction false} JoinCellsOfNonEmpty(texts: seq<string>)
    requires forall k :: 0 <= k < |texts| ==> texts[k] != []
    ensures JoinCells(texts) == SpaceJoin(texts)
    ensures texts != [] ==> JoinCells(texts) != []
  {
    if texts != [] {
      var init := texts[..|texts| - 1];
      JoinCellsOfNonEmpty(init);
    }
  }
}
