/** Deriving a model name from a lower-cased Bedrock `usagetype`
    (lambda-function/index.js lines 72-76). */
module UsageType {
  import opened Common
  import opened Text

  const InputTokens: string := "-input-tokens"
  const OutputTokens: string := "-output-tokens"

  predicate IsDigit(c: char) { '0' <= c <= '9' }

  /** The regular-expression class `\w`. */
  predicate IsWordChar(c: char) {
    'a' <= c <= 'z' || 'A' <= c <= 'Z' || IsDigit(c) || c == '_'
  }

  predicate AllDigits(s: string) { forall i :: 0 <= i < |s| ==> IsDigit(s[i]) }

  predicate AllWordChars(s: string) { forall i :: 0 <= i < |s| ==> IsWordChar(s[i]) }

  /** `head` followed by one or more characters of a class: `head\d+` or `head\w+`. */
  predicate HeadThenDigits(seg: string, head: string) {
    |seg| > |head| && seg[..|head|] == head && AllDigits(seg[|head|..])
  }

  predicate HeadThenWordChars(seg: string, head: string) {
    |seg| > |head| && seg[..|head|] == head && AllWordChars(seg[|head|..])
  }

  /** The alternation `use1|usw2|aps\d+|eu\w+|can\d+|eun\d+|eus\d+|apn\d+`
      matching the whole of `seg`. */
  predicate IsRegionSegment(seg: string) {
    || seg == "use1" || seg == "usw2"
    || HeadThenDigits(seg, "aps")
    || HeadThenWordChars(seg, "eu")
    || HeadThenDigits(seg, "can")
    || HeadThenDigits(seg, "eun")
    || HeadThenDigits(seg, "eus")
    || HeadThenDigits(seg, "apn")
  }

  /** No alternative of the prefix pattern can match a dash: `\d` and `\w`
      exclude it. */
  lemma RegionSegmentHasNoDash(seg: string)
    requires IsRegionSegment(seg)
    ensures '-' !in seg
  {
  }

  /** The position of the first dash. */
  function FirstDash(s: string): (r: Option<nat>)
    ensures r.Some? ==> r.value < |s| && s[r.value] == '-' && '-' !in s[..r.value]
    ensures r.None? ==> '-' !in s
    decreases |s|
  {
    if |s| == 0 then None
    else if s[0] == '-' then Some(0)
    else
      match FirstDash(s[1..])
      case None => None
      case Some(i) =>
        assert s[..i + 1] == [s[0]] + s[1..][..i];
        Some(i + 1)
  }

  /** `replace(/^(use1|usw2|aps\d+|eu\w+|can\d+|eun\d+|eus\d+|apn\d+)-/, "")`:
      drops the first dash-separated segment and its dash when that segment is
      a region code, and nothing otherwise. */
  function StripRegion(s: string): (r: string)
    ensures forall k :: 0 <= k < |s| && s[k] == '-' && IsRegionSegment(s[..k]) ==> r == s[k + 1..]
    ensures r == s || exists k :: 0 <= k < |s| && s[k] == '-' && IsRegionSegment(s[..k]) && r == s[k + 1..]
  {
    match FirstDash(s)
    case None =>
      assert forall k :: 0 <= k < |s| ==> s[k] != '-' by {
        forall k | 0 <= k < |s| ensures s[k] != '-' { assert s[k] in s; }
      }
      s
    case Some(d) =>
      forall k | 0 <= k < |s| && s[k] == '-' && IsRegionSegment(s[..k]) ensures k == d {
        RegionSegmentHasNoDash(s[..k]);
      }
      if IsRegionSegment(s[..d]) then s[d + 1..] else s
  }

  /** The alternation `-(batch|priority|flex|cross-region-global)` at the start
      of `s`: the length of the alternative that matches, tried in order. */
  function ModifierAt(s: string): (r: Option<nat>)
    ensures r.Some? ==> 0 < r.value <= |s|
  {
    if |s| >= 6 && s[..6] == "-batch" then Some(6)
    else if |s| >= 9 && s[..9] == "-priority" then Some(9)
    else if |s| >= 5 && s[..5] == "-flex" then Some(5)
    else if |s| >= 20 && s[..20] == "-cross-region-global" then Some(20)
    else None
  }

  /** Some modifier occurs in `s` at position `k`. */
  predicate HasModifierAt(s: string, k: int) {
    0 <= k < |s| && ModifierAt(s[k..]).Some?
  }

  /** `replace(/-(batch|priority|flex|cross-region-global)/g, "")`: scans left
      to right, deletes each match and resumes after it, never rescanning. The
      result is the input exactly when no modifier occurs in it. */
  function StripModifiers(s: string): (r: string)
    ensures |r| <= |s|
    ensures forall c :: c in r ==> c in s
    ensures r == s <==> forall k :: 0 <= k < |s| ==> !HasModifierAt(s, k)
    decreases |s|
  {
    if |s| == 0 then s
    else
      match ModifierAt(s)
      case Some(n) =>
        assert HasModifierAt(s, 0) by { assert s[0..] == s; }
        StripModifiers(s[n..])
      case None =>
        var rest := StripModifiers(s[1..]);
        ModifierFreeShift(s);
        assert !HasModifierAt(s, 0) by { assert s[0..] == s; }
        assert [s[0]] + rest == s <==> rest == s[1..] by {
          if [s[0]] + rest == s { assert rest == s[1..]; }
        }
        [s[0]] + rest
  }

  /** Being modifier-free splits into the first position and the tail. */
  lemma ModifierFreeShift(s: string)
    requires |s| > 0
    ensures (forall k :: 0 <= k < |s| ==> !HasModifierAt(s, k))
            <==> !HasModifierAt(s, 0) && forall k :: 0 <= k < |s| - 1 ==> !HasModifierAt(s[1..], k)
  {
    forall k | 1 <= k < |s| ensures HasModifierAt(s, k) == HasModifierAt(s[1..], k - 1) {
      assert s[k..] == s[1..][k - 1..];
    }
    if forall k :: 0 <= k < |s| ==> !HasModifierAt(s, k) {
      forall k | 0 <= k < |s| - 1 ensures !HasModifierAt(s[1..], k) {
        assert !HasModifierAt(s, k + 1);
      }
    }
  }

  /** One step of the left-to-right scan: when the leftmost modifier of `s`
      starts at `i`, the text before it is kept, the match is deleted, and the
      scan resumes on what follows it as a string of its own. With the iff
      above this fixes the result for every input. */
  lemma {:induction false} StripModifiersAtMatch(s: string, i: nat, n: nat)
    requires i < |s| && ModifierAt(s[i..]) == Some(n)
    requires forall k :: 0 <= k < i ==> !HasModifierAt(s, k)
    ensures StripModifiers(s) == s[..i] + StripModifiers(s[i + n..])
    decreases i
  {
    if i == 0 {
      assert s[0..] == s;
      StripModifiersStep(s);
      assert s[..0] + StripModifiers(s[n..]) == StripModifiers(s[n..]);
    } else {
      var t := s[1..];
      ModifierFreePrefixShift(s, i);
      assert t[i - 1..] == s[i..];
      StripModifiersAtMatch(t, i - 1, n);
      assert t[i - 1 + n..] == s[i + n..];
      StripModifiersKeepsHead(s, i, n);
    }
  }

  /** A first character where no modifier starts is kept in front of the
      tail's result. */
  lemma StripModifiersKeepsHead(s: string, i: nat, n: nat)
    requires 0 < i && i + n <= |s| && ModifierAt(s).None?
    requires StripModifiers(s[1..]) == s[1..][..i - 1] + StripModifiers(s[i + n..])
    ensures StripModifiers(s) == s[..i] + StripModifiers(s[i + n..])
  {
    StripModifiersStep(s);
    ConsAppend(s[0], s[1..][..i - 1], StripModifiers(s[i + n..]));
    PrefixCons(s, i);
  }

  /** One unfolding of the scan on a non-empty string. */
  lemma StripModifiersStep(s: string)
    requires |s| > 0
    ensures ModifierAt(s).Some? ==> StripModifiers(s) == StripModifiers(s[ModifierAt(s).value..])
    ensures ModifierAt(s).None? ==> StripModifiers(s) == [s[0]] + StripModifiers(s[1..])
  {
  }

  /** A modifier-free prefix of `s` of length `n` stays modifier-free, one
      shorter, in the tail. */
  lemma ModifierFreePrefixShift(s: string, n: nat)
    requires 0 < n <= |s|
    requires forall k :: 0 <= k < n ==> !HasModifierAt(s, k)
    ensures ModifierAt(s).None?
    ensures forall k :: 0 <= k < n - 1 ==> !HasModifierAt(s[1..], k)
  {
    assert !HasModifierAt(s, 0);
    assert s[0..] == s;
    forall k | 0 <= k < n - 1 ensures !HasModifierAt(s[1..], k) {
      assert !HasModifierAt(s, k + 1);
      assert s[k + 1..] == s[1..][k..];
    }
  }

  /** Matches are never rescanned: deleting the inner "-batch" of
      "-bat-batchch" brings a new "-batch" together, and it stays. */
  lemma StripModifiersNoRescan()
    ensures StripModifiers("-bat-batchch") == "-batch"
  {
    var s := "-bat-batchch";
    NoRescanHead(s);
    assert ModifierAt(s[4..]) == Some(6) by { assert s[4..][..6] == "-batch"; }
    StripModifiersAtMatch(s, 4, 6);
    assert s[10..] == "ch" && s[..4] == "-bat";
    assert StripModifiers("ch") == "ch" by {
      assert !HasModifierAt("ch", 0) && !HasModifierAt("ch", 1);
    }
  }

  /** No modifier starts in the "-bat" that opens the example. */
  lemma NoRescanHead(s: string)
    requires s == "-bat-batchch"
    ensures forall k :: 0 <= k < 4 ==> !HasModifierAt(s, k)
  {
    forall k | 0 <= k < 4 ensures !HasModifierAt(s, k) {
      if k == 0 {
        assert s[0..] == s;
        NoModifierAtBat(s);
      } else {
        assert s[k..][0] == s[k] != '-';
      }
    }
  }

  /** The example's first character starts no modifier: each alternative
      differs from it at some position. */
  lemma NoModifierAtBat(s: string)
    requires s == "-bat-batchch"
    ensures ModifierAt(s).None?
  {
    assert s[..6][4] == '-' != "-batch"[4];
    assert s[..9][4] == '-' != "-priority"[4];
    assert s[..5][2] == 'a' != "-flex"[2];
  }

  /** The model name the normaliser derives from a lower-cased usagetype: one
      region prefix segment, then the first `-input-tokens`, then the first
      `-output-tokens`, then every modifier are removed, in that order. */
  function CleanName(u: string): (r: string)
    ensures forall c :: c in r ==> c in u
    ensures |r| <= |u|
  {
    StripModifiers(RemoveFirst(RemoveFirst(StripRegion(u), InputTokens), OutputTokens))
  }

  /** What the composition yields on the feed's usual shape: the name derived
      from `usw2-<n>-input-tokens` is `n`, when `n` holds no modifier, no
      output-token suffix, and no input-token suffix that would start inside
      it. */
  lemma CleanNameOfInputSku(n: string)
    requires forall j :: 0 <= j < |n| ==> !OccursAt(n + InputTokens, InputTokens, j)
    requires !Contains(n, OutputTokens)
    requires forall k :: 0 <= k < |n| ==> !HasModifierAt(n, k)
    ensures CleanName("usw2-" + n + InputTokens) == n
  {
    assert "usw2-" + n + InputTokens == "usw2-" + (n + InputTokens);
    StripRegionKnownPrefix(n + InputTokens);
    RemoveFirstSuffix(n, InputTokens);
  }

  /** A modifier before the token suffix is removed as well: the name derived
      from `usw2-<n>-batch-output-tokens` is `n`, so batch and on-demand SKUs of
      one model share a name. */
  lemma CleanNameOfBatchOutputSku(n: string)
    requires forall j :: 0 <= j < |n| + 6 ==> !OccursAt(n + "-batch" + OutputTokens, OutputTokens, j)
    requires !Contains(n + "-batch" + OutputTokens, InputTokens)
    requires forall k :: 0 <= k < |n| ==> !HasModifierAt(n + "-batch", k)
    ensures CleanName("usw2-" + n + "-batch" + OutputTokens) == n
  {
    var b := n + "-batch";
    var u := "usw2-" + n + "-batch" + OutputTokens;
    assert u == "usw2-" + (b + OutputTokens);
    calc {
      CleanName(u);
      StripModifiers(RemoveFirst(RemoveFirst(StripRegion(u), InputTokens), OutputTokens));
      { StripRegionKnownPrefix(b + OutputTokens); }
      StripModifiers(RemoveFirst(RemoveFirst(b + OutputTokens, InputTokens), OutputTokens));
      StripModifiers(RemoveFirst(b + OutputTokens, OutputTokens));
      { RemoveFirstSuffix(b, OutputTokens); }
      StripModifiers(b);
      { StripTrailingBatch(n); }
      n;
    }
  }

  /** A trailing "-batch" after modifier-free text is deleted. */
  lemma StripTrailingBatch(n: string)
    requires forall k :: 0 <= k < |n| ==> !HasModifierAt(n + "-batch", k)
    ensures StripModifiers(n + "-batch") == n
  {
    var b := n + "-batch";
    assert ModifierAt(b[|n|..]) == Some(6) by { assert b[|n|..][..6] == "-batch"; }
    StripModifiersAtMatch(b, |n|, 6);
    assert b[..|n|] == n && b[|n| + 6..] == [];
  }

  /** A name derived from a lower-cased usagetype is itself lower-case. */
  lemma CleanNameHasNoUpper(u: string)
    requires HasNoUpper(u)
    ensures HasNoUpper(CleanName(u))
  {
    var r := CleanName(u);
    forall i | 0 <= i < |r| ensures !IsUpper(r[i]) {
      assert r[i] in r;
      var j :| 0 <= j < |u| && u[j] == r[i];
    }
  }

  /** The prefix pattern applied to usagetypes of the feed's shape: a known
      region code and its dash are dropped, whatever follows. */
  lemma StripRegionKnownPrefix(rest: string)
    ensures StripRegion("usw2-" + rest) == rest
  {
    var s := "usw2-" + rest;
    assert s[..4] == "usw2" && s[4] == '-';
    assert FirstDash(s) == Some(4) by {
      assert '-' !in s[..4];
    }
    assert s[5..] == rest;
  }

  /** `eu\w+`: "eu" followed by word characters is a region code. */
  lemma StripRegionWordPrefix(rest: string)
    ensures StripRegion("euc1-" + rest) == rest
  {
    var s := "euc1-" + rest;
    assert s[..4] == "euc1" && s[4] == '-';
    assert FirstDash(s) == Some(4) by {
      assert '-' !in s[..4];
    }
    assert HeadThenWordChars(s[..4], "eu");
    assert s[5..] == rest;
  }

  /** A first segment that is no region code is kept. */
  lemma StripRegionUnknownPrefix(rest: string)
    ensures StripRegion("us-" + rest) == "us-" + rest
  {
    var s := "us-" + rest;
    assert s[..2] == "us" && s[2] == '-';
    assert FirstDash(s) == Some(2) by {
      assert '-' !in s[..2];
    }
    assert !IsRegionSegment(s[..2]);
  }
}
