/** `find_user_ids_in_string`: run each pattern of the chosen mode with
    `findall` and concatenate the results pattern by pattern. */
module Search {
  import opened Text
  import opened Regex

  /** The capture group of a match. */
  function Capture(s: string, h: Hit): string
    requires WellPlaced(s, h)
  {
    s[h.capStart..h.capEnd]
  }

  function Captures(s: string, hits: seq<Hit>): (r: seq<string>)
    requires forall k :: 0 <= k < |hits| ==> WellPlaced(s, hits[k])
    ensures |r| == |hits|
    ensures forall k :: 0 <= k < |r| ==> r[k] == Capture(s, hits[k])
  {
    if |hits| == 0 then [] else [Capture(s, hits[0])] + Captures(s, hits[1..])
  }

  /** `regex.findall(s)`: the capture group of every match, in order. The
      matches are a sequence with `findall` semantics, and by
      `Regex.FindAllUnique` the only one. */
  function FindAll(p: Pattern, s: string): (r: seq<string>)
    ensures exists hits ::
              && IsFindAll(p, s, 0, hits)
              && (forall k :: 0 <= k < |hits| ==> WellPlaced(s, hits[k]))
              && r == Captures(s, hits)
  {
    var hits := Scan(p, s, 0);
    ScanIsFindAll(p, s, 0);
    Captures(s, hits)
  }

  /** The patterns of each mode, in the order they are run. */
  function ModePatterns(fullCheck: bool): seq<Pattern>
  {
    if fullCheck then [CommunityUrl, ProfileUrl, CsgoStats] else [SteamId, Username]
  }

  function FindAllOf(ps: seq<Pattern>, s: string): seq<string>
  {
    if |ps| == 0 then [] else FindAll(ps[0], s) + FindAllOf(ps[1..], s)
  }

  /** `find_user_ids_in_string(string, full_check)`: full mode lists the
      community-URL captures, then the profile-URL ids, then the csgostats
      ids; light mode lists the bare numbers, then the handles. */
  function FindUserIds(s: string, fullCheck: bool): (r: seq<string>)
    ensures fullCheck ==> r == FindAll(CommunityUrl, s) + FindAll(ProfileUrl, s) + FindAll(CsgoStats, s)
    ensures !fullCheck ==> r == FindAll(SteamId, s) + FindAll(Username, s)
  {
    if fullCheck then
      FindAllOfThree(CommunityUrl, ProfileUrl, CsgoStats, s);
      FindAllOf(ModePatterns(fullCheck), s)
    else
      FindAllOfTwo(SteamId, Username, s);
      FindAllOf(ModePatterns(fullCheck), s)
  }

  lemma FindAllOfTwo(a: Pattern, b: Pattern, s: string)
    ensures FindAllOf([a, b], s) == FindAll(a, s) + FindAll(b, s)
  {
    FindAllOfSplit([a, b], s);
    FindAllOfSplit([b], s);
    assert [a, b][1..] == [b];
    assert [b][1..] == [];
  }

  lemma FindAllOfThree(a: Pattern, b: Pattern, c: Pattern, s: string)
    ensures FindAllOf([a, b, c], s) == FindAll(a, s) + FindAll(b, s) + FindAll(c, s)
  {
    FindAllOfSplit([a, b, c], s);
    assert [a, b, c][1..] == [b, c];
    FindAllOfTwo(b, c, s);
    ConcatAssoc(FindAll(a, s), FindAll(b, s), FindAll(c, s));
  }

  lemma ConcatAssoc(x: seq<string>, y: seq<string>, z: seq<string>)
    ensures x + (y + z) == x + y + z
  {
  }

  /** What every capture of a pattern looks like. */
  ghost predicate CaptureForm(p: Pattern, c: string)
  {
    match p
    case SteamId => IsCanonicalNumeral(c)
    case Username => |c| > 0 && forall k :: 0 <= k < |c| ==> IsHandleChar(c[k])
    case CommunityUrl => forall k :: 0 <= k < |c| ==> c[k] != '/'
    case ProfileUrl => IsCanonicalNumeral(c)
    case CsgoStats => IsCanonicalNumeral(c)
  }

  /** Captures of the numeric patterns are numerals with no leading zero; a
      handle capture is a non-empty run of letters, digits and `[`; a vanity
      capture contains no `/` (and may be empty). */
  lemma FindAllCaptureForm(p: Pattern, s: string)
    ensures forall k :: 0 <= k < |FindAll(p, s)| ==> CaptureForm(p, FindAll(p, s)[k])
  {
    var hits := Scan(p, s, 0);
    ScanIsFindAll(p, s, 0);
    forall k | 0 <= k < |hits|
      ensures CaptureForm(p, Capture(s, hits[k]))
    {
      var h := hits[k];
      assert Shape(p, s, h);
      if p.Username? || p.CommunityUrl? {
        var c := Capture(s, h);
        assert forall m :: 0 <= m < |c| ==> c[m] == s[h.capStart + m];
      }
    }
  }

  lemma FindAllOfSplit(ps: seq<Pattern>, s: string)
    requires |ps| > 0
    ensures FindAllOf(ps, s) == FindAll(ps[0], s) + FindAllOf(ps[1..], s)
  {
  }

  /** Full mode: all vanity captures, then all profile captures, then all
      stats-site captures, each group in its own left-to-right order; the
      total is the sum of the per-pattern counts. */
  lemma FullModeGrouped(s: string)
    ensures var r := FindUserIds(s, true);
            var a, b, c := FindAll(CommunityUrl, s), FindAll(ProfileUrl, s), FindAll(CsgoStats, s);
            && |r| == |a| + |b| + |c|
            && r[..|a|] == a && r[|a|..|a| + |b|] == b && r[|a| + |b|..] == c
            && (forall k :: 0 <= k < |a| ==> CaptureForm(CommunityUrl, r[k]))
            && (forall k :: |a| <= k < |r| ==> IsCanonicalNumeral(r[k]))
  {
    var a, b, c := FindAll(CommunityUrl, s), FindAll(ProfileUrl, s), FindAll(CsgoStats, s);
    var r := a + b + c;
    FindAllCaptureForm(CommunityUrl, s);
    FindAllCaptureForm(ProfileUrl, s);
    FindAllCaptureForm(CsgoStats, s);
    forall k | |a| <= k < |r|
      ensures IsCanonicalNumeral(r[k])
    {
      if k < |a| + |b| {
        assert r[k] == b[k - |a|];
      } else {
        assert r[k] == c[k - |a| - |b|];
      }
    }
  }

  /** Light mode: every bare-number match, then every handle match. Nothing
      is required of the input as a whole, so a string with matches of both
      kinds yields both, and a string with none yields the empty list. */
  lemma LightModeGrouped(s: string)
    ensures var r := FindUserIds(s, false);
            var a, b := FindAll(SteamId, s), FindAll(Username, s);
            && |r| == |a| + |b|
            && r[..|a|] == a && r[|a|..] == b
            && (forall k :: 0 <= k < |a| ==> IsCanonicalNumeral(r[k]))
            && (forall k :: |a| <= k < |r| ==> CaptureForm(Username, r[k]))
  {
    var a, b := FindAll(SteamId, s), FindAll(Username, s);
    FindAllCaptureForm(SteamId, s);
    FindAllCaptureForm(Username, s);
    var r := a + b;
    forall k | |a| <= k < |r|
      ensures CaptureForm(Username, r[k])
    {
      assert r[k] == b[k - |a|];
    }
  }

  /** `findall` over a stretch where the pattern never applies finds nothing there. */
  lemma NothingApplies(p: Pattern, s: string)
    requires forall j: nat :: j < |s| ==> !Applies(p, s, j)
    ensures FindAll(p, s) == []
  {
    assert IsFindAll(p, s, 0, []);
    FindAllUnique(p, s, 0, []);
  }

  /** Every URL pattern starts with the literal scheme. */
  lemma UrlNeedsScheme(p: Pattern, s: string, j: nat)
    requires p.CommunityUrl? || p.ProfileUrl? || p.CsgoStats?
    requires Applies(p, s, j)
    ensures LiteralAt(s, j, "http://") || LiteralAt(s, j, "https://")
  {
  }

  /** A URL pattern finds nothing in a string that never spells `http://`
      or `https://`. */
  lemma NoSchemeNoUrl(p: Pattern, s: string)
    requires p.CommunityUrl? || p.ProfileUrl? || p.CsgoStats?
    requires forall j: nat :: !LiteralAt(s, j, "http://") && !LiteralAt(s, j, "https://")
    ensures FindAll(p, s) == []
  {
    forall j: nat | j < |s|
      ensures !Applies(p, s, j)
    {
      if Applies(p, s, j) {
        UrlNeedsScheme(p, s, j);
      }
    }
    NothingApplies(p, s);
  }

  /** Full mode finds nothing in a string that never spells `http://` or
      `https://`: the schemes are matched literally and case-sensitively. */
  lemma NoSchemeNoMatch(s: string)
    requires forall j: nat :: !LiteralAt(s, j, "http://") && !LiteralAt(s, j, "https://")
    ensures FindUserIds(s, true) == []
  {
    NoSchemeNoUrl(CommunityUrl, s);
    NoSchemeNoUrl(ProfileUrl, s);
    NoSchemeNoUrl(CsgoStats, s);
  }

  /** A vanity match: the capture starts right after the host and runs up to
      the next `/` or the end of the string. */
  ghost predicate RunsToSlash(s: string, h: Hit)
  {
    && h.capEnd <= |s|
    && UrlHead(s, h.start, CommunityHost, h.capStart)
    && (forall m :: h.capStart <= m < h.capEnd ==> s[m] != '/')
    && (h.capEnd == |s| || s[h.capEnd] == '/')
  }

  /** A handle match: a run of handle characters with none on either side. */
  ghost predicate MaximalRun(s: string, h: Hit)
  {
    && h.start <= h.end <= |s|
    && (forall m :: h.start <= m < h.end ==> IsHandleChar(s[m]))
    && (h.start == 0 || !IsHandleChar(s[h.start - 1]))
    && (h.end == |s| || !IsHandleChar(s[h.end]))
  }

  /** A vanity capture runs from the end of the host to the next `/` or to the
      end of the string, whatever lies in between (spaces included). */
  lemma CommunityCaptureRunsToSlash(s: string)
    ensures forall h :: h in Scan(CommunityUrl, s, 0) ==> RunsToSlash(s, h)
  {
    var hits := Scan(CommunityUrl, s, 0);
    ScanAllShaped(CommunityUrl, s, 0);
    forall h | h in hits
      ensures RunsToSlash(s, h)
    {
      var k :| 0 <= k < |hits| && hits[k] == h;
      assert Shape(CommunityUrl, s, hits[k]);
    }
  }

  /** The character after a handle match is not a handle character. */
  lemma HandleHitStops(s: string, hits: seq<Hit>, k: nat)
    requires AllShaped(Username, s, hits) && k < |hits|
    ensures hits[k].start < hits[k].end <= |s|
    ensures IsHandleChar(s[hits[k].start])
    ensures hits[k].end == |s| || !IsHandleChar(s[hits[k].end])
  {
    assert Shape(Username, s, hits[k]);
  }

  /** One handle match of a `findall` list is a whole run. */
  lemma HandleHitMaximal(s: string, hits: seq<Hit>, k: nat)
    requires IsFindAll(Username, s, 0, hits) && k < |hits|
    ensures MaximalRun(s, hits[k])
  {
    var h := hits[k];
    assert Shape(Username, s, h);
    if h.start > 0 && IsHandleChar(s[h.start - 1]) {
      var j: nat := h.start - 1;
      assert Applies(Username, s, j);
      assert !Uncovered(hits, j);
      var q :| 0 <= q < |hits| && hits[q].start <= j < hits[q].end;
      HandleHitStops(s, hits, q);
      HandleHitStops(s, hits, k);
      if q < k {
        HitsAscend(hits, q, k);
        assert false;
      } else if k < q {
        HitsAscend(hits, k, q);
        assert false;
      }
    }
  }

  /** Handle matches are whole runs: the character before a match and the
      character after it are not letters, digits or `[`. */
  lemma HandleMatchesAreMaximalRuns(s: string)
    ensures forall h :: h in Scan(Username, s, 0) ==> MaximalRun(s, h)
  {
    var hits := Scan(Username, s, 0);
    ScanIsFindAll(Username, s, 0);
    forall h | h in hits
      ensures MaximalRun(s, h)
    {
      var k :| 0 <= k < |hits| && hits[k] == h;
      HandleHitMaximal(s, hits, k);
    }
  }

  lemma NumbersInMixedToken()
    ensures FindAll(SteamId, "a1") == ["1"]
  {
    var s := "a1";
    assert RunEnd(s, 2, IsDigit) == 2;
    assert Scan(SteamId, s, 1) == [Hit(1, 1, 2, 2)];
    assert Scan(SteamId, s, 0) == [Hit(1, 1, 2, 2)];
    assert s[1..2] == "1";
  }

  lemma HandlesInMixedToken()
    ensures FindAll(Username, "a1") == ["a1"]
  {
    var s := "a1";
    assert RunEnd(s, 1, IsHandleChar) == 2;
    assert Scan(Username, s, 0) == [Hit(0, 0, 2, 2)];
    assert s[0..2] == s;
  }

  /** `findall`, not a full match: a mixed token yields its numeric tail and
      then the whole token. */
  lemma LightModeMixedToken()
    ensures FindUserIds("a1", false) == ["1", "a1"]
  {
    NumbersInMixedToken();
    HandlesInMixedToken();
  }

  /** No match is not an error: light mode returns the empty list. */
  lemma LightModeNoMatch()
    ensures FindUserIds("!", false) == []
  {
    var s := "!";
    assert !IsDigit(s[0]) && !IsHandleChar(s[0]);
    NothingApplies(SteamId, s);
    NothingApplies(Username, s);
  }
}
