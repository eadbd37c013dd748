/**
 * One line of a CreateVEOs control file: how it is cut into tokens
 * (`String.split("\t")` followed by `replaceAll("<tab>", "\t")` on every
 * token), how the command keyword and the terminating `end` line are
 * recognised, and how the `$$` separator splits an argument list.
 */
module ControlLine {
  import opened JavaText

  /** The escape a control file uses for a tab inside a token. */
  const TabMarker: string := "<tab>"

  predicate NoTab(t: string) {
    forall k :: 0 <= k < |t| ==> t[k] != '\t'
  }

  predicate AllTabs(s: string) {
    forall k :: 0 <= k < |s| ==> s[k] == '\t'
  }

  // ---------------------------------------------------------------------
  // String.split("\t")
  // ---------------------------------------------------------------------

  /** The fields of `s` between tabs, keeping every empty field. */
  function Fields(s: string): (r: seq<string>)
    ensures |r| >= 1
    ensures forall k :: 0 <= k < |r| ==> NoTab(r[k])
  {
    if |s| == 0 then [""]
    else
      var rest := Fields(s[1..]);
      if s[0] == '\t' then [""] + rest
      else [[s[0]] + rest[0]] + rest[1..]
  }

  /** The fields joined back with a tab between neighbours. */
  function JoinTabs(ts: seq<string>): string
    requires |ts| >= 1
  {
    if |ts| == 1 then ts[0] else ts[0] + "\t" + JoinTabs(ts[1..])
  }

  /** Removes the empty strings at the end of `ts`, as `split` with limit 0 does. */
  function DropTrailingEmpty(ts: seq<string>): (r: seq<string>)
    ensures |r| <= |ts| && r == ts[..|r|]
    ensures |r| == 0 || r[|r| - 1] != ""
    ensures forall k :: |r| <= k < |ts| ==> ts[k] == ""
  {
    if |ts| == 0 then []
    else if ts[|ts| - 1] != "" then ts
    else DropTrailingEmpty(ts[..|ts| - 1])
  }

  /**
   * `s.split("\t")`: a line without a tab is its own single token;
   * otherwise the tab-separated fields without the trailing empty ones.
   */
  function SplitTabs(s: string): seq<string> {
    if NoTab(s) then [s] else DropTrailingEmpty(Fields(s))
  }

  lemma {:induction false} FieldsOfUntabbedPrefix(t: string, u: string)
    requires NoTab(t)
    ensures Fields(t + u) == [t + Fields(u)[0]] + Fields(u)[1..]
  {
    if |t| > 0 {
      assert (t + u)[1..] == t[1..] + u;
      FieldsOfUntabbedPrefix(t[1..], u);
      assert [t[0]] + (t[1..] + Fields(u)[0]) == t + Fields(u)[0];
    } else {
      assert t + u == u;
      var f := Fields(u);
      assert f == [f[0]] + f[1..];
      assert t + f[0] == f[0];
    }
  }

  /** Splitting tab-free fields joined by tabs gives the fields back. */
  lemma {:induction false} FieldsJoinTabs(ts: seq<string>)
    requires |ts| >= 1
    requires forall k :: 0 <= k < |ts| ==> NoTab(ts[k])
    ensures Fields(JoinTabs(ts)) == ts
  {
    if |ts| == 1 {
      FieldsOfUntabbedPrefix(ts[0], "");
      assert ts[0] + "" == ts[0];
    } else {
      var rest := JoinTabs(ts[1..]);
      var tail := "\t" + rest;
      assert ts[0] + "\t" + rest == ts[0] + tail;
      FieldsOfUntabbedPrefix(ts[0], tail);
      assert tail[0] == '\t' && tail[1..] == rest;
      assert Fields(tail) == [""] + Fields(rest);
      FieldsJoinTabs(ts[1..]);
      assert ts[0] + "" == ts[0];
      assert ts == [ts[0]] + ts[1..];
    }
  }

  /** Joining the fields of a line rebuilds the line. */
  lemma {:induction false} JoinTabsFields(s: string)
    ensures JoinTabs(Fields(s)) == s
  {
    if |s| > 0 {
      JoinTabsFields(s[1..]);
      var rest := Fields(s[1..]);
      if s[0] == '\t' {
        assert ([""] + rest)[1..] == rest;
        assert s == "" + "\t" + s[1..];
      } else if |rest| == 1 {
        assert s == [s[0]] + rest[0];
      } else {
        var r := [[s[0]] + rest[0]] + rest[1..];
        assert r[1..] == rest[1..];
        assert JoinTabs(rest) == rest[0] + "\t" + JoinTabs(rest[1..]);
      }
    }
  }

  lemma {:induction false} JoinOfEmptiesIsTabs(ts: seq<string>)
    requires |ts| >= 1
    requires forall k :: 0 <= k < |ts| ==> ts[k] == ""
    ensures AllTabs(JoinTabs(ts))
  {
    if |ts| > 1 {
      JoinOfEmptiesIsTabs(ts[1..]);
    }
  }

  lemma {:induction false} FieldsOfTabs(s: string)
    requires AllTabs(s)
    ensures forall k :: 0 <= k < |Fields(s)| ==> Fields(s)[k] == ""
  {
    if |s| > 0 {
      FieldsOfTabs(s[1..]);
    }
  }

  /**
   * Splitting a line with at least two fields whose last field is not
   * empty gives exactly those fields: `split` is the inverse of joining.
   */
  lemma SplitJoinRoundTrip(ts: seq<string>)
    requires |ts| >= 1 && ts[|ts| - 1] != ""
    requires forall k :: 0 <= k < |ts| ==> NoTab(ts[k])
    ensures SplitTabs(JoinTabs(ts)) == ts
  {
    FieldsJoinTabs(ts);
    if NoTab(JoinTabs(ts)) {
      assert |Fields(JoinTabs(ts))| == 1 by {
        FieldsOfUntabbedPrefix(JoinTabs(ts), "");
        assert JoinTabs(ts) + "" == JoinTabs(ts);
      }
    }
  }

  // ---------------------------------------------------------------------
  // replaceAll("<tab>", "\t") and its inverse
  // ---------------------------------------------------------------------

  predicate StartsWith(t: string, p: string) {
    |p| <= |t| && t[..|p|] == p
  }

  /** True when the five chars `<tab>` occur somewhere in `t`. */
  predicate ContainsMarker(t: string) {
    |t| >= 5 && (StartsWith(t, TabMarker) || ContainsMarker(t[1..]))
  }

  /** `t.replaceAll("<tab>", "\t")`: left-to-right, non-overlapping replacement. */
  function DecodeTabs(t: string): string {
    if StartsWith(t, TabMarker) then "\t" + DecodeTabs(t[5..])
    else if |t| == 0 then ""
    else [t[0]] + DecodeTabs(t[1..])
  }

  /** What a control-file writer does to put a tab inside a token. */
  function EncodeTabs(t: string): string {
    if |t| == 0 then ""
    else if t[0] == '\t' then TabMarker + EncodeTabs(t[1..])
    else [t[0]] + EncodeTabs(t[1..])
  }

  /** A prefix free of '<' and tabs survives decoding unchanged, and only from the same prefix. */
  lemma {:induction false} DecodeKeepsPlainPrefix(u: string, p: string)
    requires forall k :: 0 <= k < |p| ==> p[k] != '<' && p[k] != '\t'
    ensures StartsWith(DecodeTabs(u), p) <==> StartsWith(u, p)
    decreases |p|
  {
    if |p| > 0 {
      if StartsWith(u, TabMarker) {
        assert DecodeTabs(u)[0] == '\t';
        assert u[0] == '<';
      } else if |u| > 0 {
        var d := DecodeTabs(u);
        assert d == [u[0]] + DecodeTabs(u[1..]);
        DecodeKeepsPlainPrefix(u[1..], p[1..]);
        if StartsWith(d, p) {
          assert d[1..|p|] == DecodeTabs(u[1..])[..|p| - 1];
          assert u[..|p|] == [u[0]] + u[1..][..|p| - 1];
        }
        if StartsWith(u, p) {
          assert u[1..][..|p| - 1] == u[1..|p|];
          assert d[..|p|] == [u[0]] + DecodeTabs(u[1..])[..|p| - 1];
        }
      }
    }
  }

  /** The same fact for encoding. */
  lemma {:induction false} EncodeKeepsPlainPrefix(u: string, p: string)
    requires forall k :: 0 <= k < |p| ==> p[k] != '<' && p[k] != '\t'
    ensures StartsWith(EncodeTabs(u), p) <==> StartsWith(u, p)
    decreases |p|
  {
    if |p| > 0 && |u| > 0 {
      var e := EncodeTabs(u);
      if u[0] == '\t' {
        assert e[0] == '<';
      } else {
        assert e == [u[0]] + EncodeTabs(u[1..]);
        EncodeKeepsPlainPrefix(u[1..], p[1..]);
        if StartsWith(e, p) {
          assert e[1..|p|] == EncodeTabs(u[1..])[..|p| - 1];
          assert u[..|p|] == [u[0]] + u[1..][..|p| - 1];
        }
        if StartsWith(u, p) {
          assert u[1..][..|p| - 1] == u[1..|p|];
          assert e[..|p|] == [u[0]] + EncodeTabs(u[1..])[..|p| - 1];
        }
      }
    }
  }

  /** After decoding, no `<tab>` is left in a token. */
  lemma {:induction false} DecodeLeavesNoMarker(t: string)
    ensures !ContainsMarker(DecodeTabs(t))
    decreases |t|
  {
    var d := DecodeTabs(t);
    if StartsWith(t, TabMarker) {
      DecodeLeavesNoMarker(t[5..]);
      assert d[1..] == DecodeTabs(t[5..]);
      assert d[0] == '\t';
    } else if |t| > 0 {
      DecodeLeavesNoMarker(t[1..]);
      assert d == [t[0]] + DecodeTabs(t[1..]);
      assert d[1..] == DecodeTabs(t[1..]);
      if StartsWith(d, TabMarker) {
        assert d[0] == d[..5][0] == '<';
        assert t[0] == '<';
        assert StartsWith(DecodeTabs(t[1..]), "tab>") by {
          assert DecodeTabs(t[1..])[..4] == d[1..5];
        }
        DecodeKeepsPlainPrefix(t[1..], "tab>");
        assert false;
      }
    }
  }

  /** Decoding undoes encoding for every token that does not itself spell `<tab>`. */
  lemma {:induction false} DecodeEncodeRoundTrip(t: string)
    requires !ContainsMarker(t)
    ensures DecodeTabs(EncodeTabs(t)) == t
    decreases |t|
  {
    if |t| > 0 {
      assert !ContainsMarker(t[1..]);
      DecodeEncodeRoundTrip(t[1..]);
      var e := EncodeTabs(t);
      if t[0] == '\t' {
        assert e[..5] == TabMarker;
        assert e[5..] == EncodeTabs(t[1..]);
      } else {
        assert e[1..] == EncodeTabs(t[1..]);
        if StartsWith(e, TabMarker) {
          assert e[0] == e[..5][0] == '<';
          assert t[0] == '<';
          assert StartsWith(EncodeTabs(t[1..]), "tab>") by {
            assert EncodeTabs(t[1..])[..4] == e[1..5];
          }
          EncodeKeepsPlainPrefix(t[1..], "tab>");
          assert false;
        }
        assert t == [t[0]] + t[1..];
      }
    }
  }

  lemma {:induction false} EncodeHasNoTab(t: string)
    ensures NoTab(EncodeTabs(t))
  {
    if |t| > 0 {
      EncodeHasNoTab(t[1..]);
    }
  }

  lemma {:induction false} EncodeKeepsEmptiness(t: string)
    ensures EncodeTabs(t) == "" <==> t == ""
  {
  }

  // ---------------------------------------------------------------------
  // The tokens of a line
  // ---------------------------------------------------------------------

  /** The tokens the interpreter sees for line `s`. */
  function Tokenise(s: string): (r: seq<string>)
    ensures |r| == |SplitTabs(s)|
    ensures forall k :: 0 <= k < |r| ==> !ContainsMarker(r[k])
  {
    var parts := SplitTabs(s);
    var r := seq(|parts|, k requires 0 <= k < |parts| => DecodeTabs(parts[k]));
    assert forall k :: 0 <= k < |r| ==> !ContainsMarker(r[k]) by {
      forall k | 0 <= k < |r| ensures !ContainsMarker(r[k]) {
        DecodeLeavesNoMarker(parts[k]);
      }
    }
    r
  }

  /** A control-file line written from tokens, tabs escaped as `<tab>`. */
  function WriteLine(ts: seq<string>): string
    requires |ts| >= 1
  {
    JoinTabs(seq(|ts|, k requires 0 <= k < |ts| => EncodeTabs(ts[k])))
  }

  /** Tokenising a written line gives back its tokens. */
  lemma TokeniseWriteLine(ts: seq<string>)
    requires |ts| >= 1 && ts[|ts| - 1] != ""
    requires forall k :: 0 <= k < |ts| ==> !ContainsMarker(ts[k])
    ensures Tokenise(WriteLine(ts)) == ts
  {
    var enc := seq(|ts|, k requires 0 <= k < |ts| => EncodeTabs(ts[k]));
    forall k | 0 <= k < |ts| ensures NoTab(enc[k]) && DecodeTabs(enc[k]) == ts[k] {
      EncodeHasNoTab(ts[k]);
      DecodeEncodeRoundTrip(ts[k]);
    }
    EncodeKeepsEmptiness(ts[|ts| - 1]);
    SplitJoinRoundTrip(enc);
  }

  /** The interpreter skips a line with no tokens. */
  predicate IsBlankLine(s: string) {
    s == "" || |SplitTabs(s)| == 0
  }

  /** Empty lines and lines of tabs only, and nothing else, are blank. */
  lemma BlankLineIffAllTabs(s: string)
    ensures IsBlankLine(s) <==> AllTabs(s)
  {
    if |s| > 0 && AllTabs(s) {
      assert !NoTab(s) by { assert s[0] == '\t'; }
      FieldsOfTabs(s);
      var f := Fields(s);
      assert |DropTrailingEmpty(f)| == 0;
    }
    if |s| > 0 && IsBlankLine(s) {
      var f := Fields(s);
      assert !NoTab(s);
      assert |DropTrailingEmpty(f)| == 0;
      JoinTabsFields(s);
      JoinOfEmptiesIsTabs(f);
    }
  }

  /** `s.toLowerCase().trim()`, as applied to the command token and to the `end` test. */
  function Keyword(t: string): string {
    Trim(LowerCase(t))
  }

  /** Reading stops at the first line that reads `end` in any case, blanks around it ignored. */
  predicate IsEndLine(s: string) {
    Keyword(s) == "end"
  }

  // ---------------------------------------------------------------------
  // The `$$` separator
  // ---------------------------------------------------------------------

  /** `E` compares the sep token with `$$`. */
  predicate IsEventSeparator(t: string) {
    Trim(t) == "$$"
  }

  /** The `VEO` shorthand compares the token itself with `$$`. */
  predicate IsFileSeparator(t: string) {
    t == "$$"
  }

  /** Index of the first separator in `ts`, or `|ts|` when there is none. */
  function FirstSeparator(ts: seq<string>, sep: string -> bool): (k: nat)
    ensures k <= |ts|
    ensures forall i :: 0 <= i < k ==> !sep(ts[i])
    ensures k < |ts| ==> sep(ts[k])
  {
    if |ts| == 0 then 0
    else if sep(ts[0]) then 0
    else 1 + FirstSeparator(ts[1..], sep)
  }

  /** `ts` with every separator token removed, order kept. */
  function WithoutSeparators(ts: seq<string>, sep: string -> bool): (r: seq<string>)
    ensures |r| <= |ts|
    ensures forall i :: 0 <= i < |r| ==> !sep(r[i])
  {
    if |ts| == 0 then []
    else
      var last := ts[|ts| - 1];
      WithoutSeparators(ts[..|ts| - 1], sep) + (if sep(last) then [] else [last])
  }

  /** The tokens after the first separator, with every later separator dropped. */
  function AfterSeparator(ts: seq<string>, sep: string -> bool): seq<string> {
    var k := FirstSeparator(ts, sep);
    if k == |ts| then [] else WithoutSeparators(ts[k + 1..], sep)
  }

  lemma WithoutSeparatorsExtend(ts: seq<string>, lo: nat, i: nat, sep: string -> bool)
    requires lo <= i < |ts|
    ensures WithoutSeparators(ts[lo..i + 1], sep)
         == WithoutSeparators(ts[lo..i], sep) + (if sep(ts[i]) then [] else [ts[i]])
  {
    assert ts[lo..i + 1][..i - lo] == ts[lo..i];
  }

  /** What the loop of `SplitAtSeparator` knows after looking at `i` tokens. */
  ghost predicate SplitSoFar(ts: seq<string>, sep: string -> bool, i: nat, pastSeparator: bool,
                             before: seq<string>, after: seq<string>)
    requires i <= |ts|
  {
    var k := FirstSeparator(ts, sep);
    && (pastSeparator <==> k < i)
    && (!pastSeparator ==> before == ts[..i] && after == [])
    && (pastSeparator ==> before == ts[..k] && after == WithoutSeparators(ts[k + 1..i], sep))
  }

  lemma SplitStep(ts: seq<string>, sep: string -> bool, i: nat, pastSeparator: bool,
                  before: seq<string>, after: seq<string>)
    requires i < |ts| && SplitSoFar(ts, sep, i, pastSeparator, before, after)
    ensures var isSep := sep(ts[i]);
            SplitSoFar(ts, sep, i + 1, pastSeparator || isSep,
                       if isSep || pastSeparator then before else before + [ts[i]],
                       if isSep || !pastSeparator then after else after + [ts[i]])
  {
    var k := FirstSeparator(ts, sep);
    if pastSeparator {
      WithoutSeparatorsExtend(ts, k + 1, i, sep);
    }
  }

  /**
   * The loop of the `E` command (and of the `VEO` shorthand): tokens before
   * the first separator go to `before`, non-separator tokens after it go to
   * `after`.
   */
  method SplitAtSeparator(ts: seq<string>, sep: string -> bool) returns (before: seq<string>, after: seq<string>)
    ensures before == ts[..FirstSeparator(ts, sep)]
    ensures after == AfterSeparator(ts, sep)
  {
    before := [];
    after := [];
    var pastSeparator := false;
    var i := 0;
    while i < |ts|
      invariant 0 <= i <= |ts|
      invariant SplitSoFar(ts, sep, i, pastSeparator, before, after)
    {
      SplitStep(ts, sep, i, pastSeparator, before, after);
      if sep(ts[i]) {
        pastSeparator := true;
      } else if !pastSeparator {
        before := before + [ts[i]];
      } else {
        after := after + [ts[i]];
      }
      i := i + 1;
    }
    ghost var k := FirstSeparator(ts, sep);
    if k < |ts| {
      assert ts[k + 1..i] == ts[k + 1..];
    }
  }

  lemma {:induction false} WithoutSeparatorsAppend(a: seq<string>, b: seq<string>, sep: string -> bool)
    ensures WithoutSeparators(a + b, sep) == WithoutSeparators(a, sep) + WithoutSeparators(b, sep)
    decreases |b|
  {
    if |b| > 0 {
      assert (a + b)[..|a + b| - 1] == a + b[..|b| - 1];
      WithoutSeparatorsAppend(a, b[..|b| - 1], sep);
    } else {
      assert a + b == a;
    }
  }

  lemma {:induction false} WithoutSeparatorsKeepsPlain(ts: seq<string>, sep: string -> bool)
    requires forall i :: 0 <= i < |ts| ==> !sep(ts[i])
    ensures WithoutSeparators(ts, sep) == ts
  {
    if |ts| > 0 {
      WithoutSeparatorsKeepsPlain(ts[..|ts| - 1], sep);
    }
  }

  lemma {:induction false} WithoutSeparatorsSkips(a: seq<string>, x: string, b: seq<string>, sep: string -> bool)
    requires sep(x)
    ensures WithoutSeparators(a + [x] + b, sep) == WithoutSeparators(a, sep) + WithoutSeparators(b, sep)
  {
    WithoutSeparatorsAppend(a + [x], b, sep);
    assert (a + [x])[..|a|] == a;
  }

  /** Nothing but the separators is lost: the two halves put together are the tokens minus every `$$`. */
  lemma SplitLosesOnlySeparators(ts: seq<string>, sep: string -> bool)
    ensures ts[..FirstSeparator(ts, sep)] + AfterSeparator(ts, sep) == WithoutSeparators(ts, sep)
  {
    var k := FirstSeparator(ts, sep);
    var a := ts[..k];
    WithoutSeparatorsKeepsPlain(a, sep);
    if k < |ts| {
      var b := ts[k + 1..];
      assert ts == a + [ts[k]] + b;
      WithoutSeparatorsSkips(a, ts[k], b, sep);
    } else {
      assert a == ts;
    }
  }

}
