/**
 The comma-separated settings `interfaces` and `extra_args` are read as
 `[x.strip() for x in value.split(",") if x.strip()]`. This module models
 Python's `str.split(",")`, `str.strip()` (no argument: strip whitespace) and
 that comprehension, and proves what the resulting list looks like.
 */
module CommaList {

  /** Python's `str.isspace()` for a single character. */
  predicate IsSpace(c: char) {
    || c == ' '
    || ('\t' <= c <= '\r')            // \t \n \v \f \r
    || ('\U{1C}' <= c <= '\U{1F}')    // file, group, record, unit separators
    || c == '\U{85}' || c == '\U{A0}' || c == '\U{1680}'
    || ('\U{2000}' <= c <= '\U{200A}')
    || c == '\U{2028}' || c == '\U{2029}' || c == '\U{202F}' || c == '\U{205F}'
    || c == '\U{3000}'
  }

  predicate AllSpace(s: string) {
    forall k :: 0 <= k < |s| ==> IsSpace(s[k])
  }

  /** Neither end of `s` is whitespace: what `str.strip()` leaves. */
  predicate IsStripped(s: string) {
    s == [] || (!IsSpace(s[0]) && !IsSpace(s[|s| - 1]))
  }

  /** Length of the longest all-whitespace prefix of `s`. */
  function LeadingSpace(s: string): (n: nat)
    ensures n <= |s|
    ensures AllSpace(s[..n])
    ensures n == |s| || !IsSpace(s[n])
  {
    if |s| == 0 || !IsSpace(s[0]) then 0
    else
      var m := LeadingSpace(s[1..]);
      assert s[..m + 1] == [s[0]] + s[1..][..m];
      m + 1
  }

  /** Length of the longest all-whitespace suffix of `s`. */
  function TrailingSpace(s: string): (n: nat)
    ensures n <= |s|
    ensures AllSpace(s[|s| - n..])
    ensures n == |s| || !IsSpace(s[|s| - n - 1])
  {
    if |s| == 0 || !IsSpace(s[|s| - 1]) then 0
    else
      var init := s[..|s| - 1];
      var m := TrailingSpace(init);
      assert s[|s| - (m + 1)..] == init[|init| - m..] + [s[|s| - 1]];
      m + 1
  }

  /**
   Python's `str.strip()`: the result is a slice of `s` that leaves only
   whitespace on either side and starts and ends with a non-whitespace
   character.
   */
  function Strip(s: string): (r: string)
    ensures IsStripped(r)
    ensures exists i, j :: 0 <= i <= j <= |s| && r == s[i..j] && AllSpace(s[..i]) && AllSpace(s[j..])
  {
    var i := LeadingSpace(s);
    if i == |s| then
      assert s[..0] == [] && s[0..0] == [];
      assert AllSpace(s[..|s|]) ==> AllSpace(s[0..]) by { assert s[..|s|] == s[0..]; }
      []
    else
      var t := TrailingSpace(s);
      var j := |s| - t;
      forall k | j <= k < |s| ensures IsSpace(s[k]) {
        assert s[j..][k - j] == s[k];
      }
      assert i < j;
      s[i..j]
  }

  /** Python's `sep.join(xs)` for a one-character separator. */
  function Join(xs: seq<string>, sep: char): string {
    if |xs| == 0 then ""
    else if |xs| == 1 then xs[0]
    else xs[0] + [sep] + Join(xs[1..], sep)
  }

  /**
   Python's `s.split(sep)` for a one-character separator: the maximal
   separator-free pieces, empty pieces included; `"".split(",") == [""]`.
   */
  function Split(s: string, sep: char): (r: seq<string>)
    ensures |r| >= 1
    ensures forall k :: 0 <= k < |r| ==> sep !in r[k]
    ensures Join(r, sep) == s
    decreases |s|
  {
    if |s| == 0 then [""]
    else
      var rest := Split(s[1..], sep);
      if s[0] == sep then
        assert s == [sep] + s[1..];
        [""] + rest
      else
        var r := [[s[0]] + rest[0]] + rest[1..];
        assert r[1..] == rest[1..];
        assert s == [s[0]] + s[1..];
        r
  }

  /** The filter-and-strip of the comprehension: `[p.strip() for p in pieces if p.strip()]`. */
  function StripNonEmpty(pieces: seq<string>): (r: seq<string>)
    ensures |r| <= |pieces|
    ensures forall k :: 0 <= k < |r| ==> r[k] != "" && IsStripped(r[k])
  {
    if |pieces| == 0 then []
    else
      var t := Strip(pieces[0]);
      (if t == "" then [] else [t]) + StripNonEmpty(pieces[1..])
  }

  /** The list read from a comma-separated setting (`interfaces`, `extra_args`). */
  function ParseList(s: string): (r: seq<string>)
    ensures forall k :: 0 <= k < |r| ==> r[k] != "" && IsStripped(r[k]) && ',' !in r[k]
  {
    var pieces := Split(s, ',');
    StripNonEmptyKeepsOut(pieces, ',');
    StripNonEmpty(pieces)
  }

  /** A character absent from `s` is absent from `s.strip()`. */
  lemma StripSubset(s: string, c: char)
    requires c !in s
    ensures c !in Strip(s)
  {
    var r := Strip(s);
    var i, j :| 0 <= i <= j <= |s| && r == s[i..j] && AllSpace(s[..i]) && AllSpace(s[j..]);
    forall k | 0 <= k < |r| ensures r[k] != c {
      assert r[k] == s[i + k];
    }
  }

  lemma {:induction false} StripNonEmptyKeepsOut(pieces: seq<string>, c: char)
    requires forall k :: 0 <= k < |pieces| ==> c !in pieces[k]
    ensures forall k :: 0 <= k < |StripNonEmpty(pieces)| ==> c !in StripNonEmpty(pieces)[k]
  {
    if |pieces| > 0 {
      StripSubset(pieces[0], c);
      StripNonEmptyKeepsOut(pieces[1..], c);
    }
  }

  /** `str.strip()` leaves an already stripped string alone. */
  lemma StripStripped(s: string)
    requires IsStripped(s)
    ensures Strip(s) == s
  {
    if s != [] {
      assert LeadingSpace(s) == 0;
      assert TrailingSpace(s) == 0;
      assert s[0..|s|] == s;
    }
  }

  /** `str.strip()` is empty exactly for all-whitespace strings. */
  lemma StripEmptyIff(s: string)
    ensures Strip(s) == [] <==> AllSpace(s)
  {
    if AllSpace(s) {
      var n := LeadingSpace(s);
      assert n == |s|;
    }
    if Strip(s) == [] {
      var i, j :| 0 <= i <= j <= |s| && [] == s[i..j] && AllSpace(s[..i]) && AllSpace(s[j..]);
      assert i == j;
      forall k | 0 <= k < |s| ensures IsSpace(s[k]) {
        if k < i { assert s[..i][k] == s[k]; } else { assert s[j..][k - j] == s[k]; }
      }
    }
  }

  /** `strip` is idempotent. */
  lemma StripIdempotent(s: string)
    ensures Strip(Strip(s)) == Strip(s)
  {
    StripStripped(Strip(s));
  }

  lemma {:induction false} SplitNoSep(s: string, sep: char)
    requires sep !in s
    ensures Split(s, sep) == [s]
    decreases |s|
  {
    if |s| > 0 {
      assert sep !in s[1..] by {
        forall k | 0 <= k < |s| - 1 ensures s[1..][k] != sep { assert s[1..][k] == s[k + 1]; }
      }
      SplitNoSep(s[1..], sep);
      assert [s[0]] + s[1..] == s;
    }
  }

  /** Prepending a character to the first piece commutes with appending more pieces. */
  lemma ConsFirst(c: char, ra: seq<string>, rb: seq<string>)
    requires |ra| >= 1
    ensures [[c] + (ra + rb)[0]] + (ra + rb)[1..] == ([[c] + ra[0]] + ra[1..]) + rb
  {
    assert (ra + rb)[0] == ra[0];
    assert (ra + rb)[1..] == ra[1..] + rb;
  }

  /** Splitting distributes over a separator: `(a + sep + b).split(sep) == a.split(sep) + b.split(sep)`. */
  lemma {:induction false} SplitAround(a: string, b: string, sep: char)
    ensures Split(a + [sep] + b, sep) == Split(a, sep) + Split(b, sep)
    decreases |a|
  {
    var s := a + [sep] + b;
    if |a| == 0 {
      assert s == [sep] + b;
      assert s[1..] == b;
    } else {
      assert s[0] == a[0];
      assert s[1..] == a[1..] + [sep] + b;
      SplitAround(a[1..], b, sep);
      if a[0] != sep {
        ConsFirst(a[0], Split(a[1..], sep), Split(b, sep));
      }
    }
  }

  /** The inverse direction of Split's own round trip: split undoes join on separator-free pieces. */
  lemma {:induction false} SplitJoin(xs: seq<string>, sep: char)
    requires |xs| >= 1
    requires forall k :: 0 <= k < |xs| ==> sep !in xs[k]
    ensures Split(Join(xs, sep), sep) == xs
  {
    if |xs| == 1 {
      SplitNoSep(xs[0], sep);
    } else {
      SplitJoin(xs[1..], sep);
      SplitAround(xs[0], Join(xs[1..], sep), sep);
      SplitNoSep(xs[0], sep);
      assert [xs[0]] + xs[1..] == xs;
    }
  }

  lemma {:induction false} StripNonEmptyAppend(xs: seq<string>, ys: seq<string>)
    ensures StripNonEmpty(xs + ys) == StripNonEmpty(xs) + StripNonEmpty(ys)
  {
    if |xs| > 0 {
      var t := Strip(xs[0]);
      assert (xs + ys)[0] == xs[0];
      assert (xs + ys)[1..] == xs[1..] + ys;
      StripNonEmptyAppend(xs[1..], ys);
      assert StripNonEmpty(xs + ys) == (if t == "" then [] else [t]) + StripNonEmpty(xs[1..] + ys);
    } else {
      assert xs + ys == ys;
    }
  }

  /**
   The parsed list keeps the order of the setting: parsing `a,b` gives the
   items of `a` followed by those of `b`.
   */
  lemma ParseListAround(a: string, b: string)
    ensures ParseList(a + "," + b) == ParseList(a) + ParseList(b)
  {
    SplitAround(a, b, ',');
    StripNonEmptyAppend(Split(a, ','), Split(b, ','));
  }

  /** A setting without commas yields its stripped value, or nothing if it is blank. */
  lemma ParseListSingle(s: string)
    requires ',' !in s
    ensures ParseList(s) == if AllSpace(s) then [] else [Strip(s)]
  {
    SplitNoSep(s, ',');
    StripEmptyIff(s);
  }

  /** The empty setting (the default when the key is missing) yields the empty list. */
  lemma ParseListEmpty()
    ensures ParseList("") == []
  {
    ParseListSingle("");
  }

  /** Only commas and whitespace. */
  predicate Blank(s: string) {
    forall k :: 0 <= k < |s| ==> s[k] == ',' || IsSpace(s[k])
  }

  lemma BlankAround(a: string, b: string)
    ensures Blank(a + "," + b) <==> Blank(a) && Blank(b)
  {
    var s := a + "," + b;
    if Blank(s) {
      forall k | 0 <= k < |a| ensures a[k] == ',' || IsSpace(a[k]) { assert a[k] == s[k]; }
      forall k | 0 <= k < |b| ensures b[k] == ',' || IsSpace(b[k]) { assert b[k] == s[|a| + 1 + k]; }
    }
    if Blank(a) && Blank(b) {
      forall k | 0 <= k < |s| ensures s[k] == ',' || IsSpace(s[k]) {
        if k < |a| { assert s[k] == a[k]; } else if k > |a| { assert s[k] == b[k - |a| - 1]; }
      }
    }
  }

  /** The parsed list is empty exactly when the setting holds only commas and whitespace. */
  lemma {:induction false} ParseListEmptyIff(s: string)
    ensures ParseList(s) == [] <==> Blank(s)
    decreases |s|
  {
    if ',' !in s {
      ParseListSingle(s);
      assert Blank(s) <==> AllSpace(s);
    } else {
      var i :| 0 <= i < |s| && s[i] == ',';
      var a, b := s[..i], s[i + 1..];
      assert s == a + "," + b;
      ParseListAround(a, b);
      ParseListEmptyIff(a);
      ParseListEmptyIff(b);
      BlankAround(a, b);
    }
  }

  /**
   Round trip: a list of non-empty, stripped, comma-free items written back as
   a comma-separated setting parses to the same list.
   */
  lemma {:induction false} ParseListJoin(xs: seq<string>)
    requires forall k :: 0 <= k < |xs| ==> xs[k] != "" && IsStripped(xs[k]) && ',' !in xs[k]
    ensures ParseList(Join(xs, ',')) == xs
  {
    if |xs| == 0 {
      ParseListEmpty();
    } else {
      SplitJoin(xs, ',');
      StripNonEmptyClean(xs);
    }
  }

  lemma {:induction false} StripNonEmptyClean(xs: seq<string>)
    requires forall k :: 0 <= k < |xs| ==> xs[k] != "" && IsStripped(xs[k])
    ensures StripNonEmpty(xs) == xs
  {
    if |xs| > 0 {
      StripStripped(xs[0]);
      StripNonEmptyClean(xs[1..]);
      assert [xs[0]] + xs[1..] == xs;
    }
  }
}
