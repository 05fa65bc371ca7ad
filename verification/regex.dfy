/** The five regular expressions of the extractor, each written as a matcher
    that decides whether the pattern matches at a given position (Python's
    `re` semantics: the leftmost alternative first, greedy repetition), and
    `findall`, which scans left to right and resumes after every match. */
module Regex {
  import opened Outcomes
  import opened Text

  datatype Pattern =
    | SteamId       // ([1-9][0-9]*)
    | Username      // ([a-zA-Z[0-9]+)
    | CommunityUrl  // http(?:|s)://steamcommunity\.com/id/([^/]*)
    | ProfileUrl    // http(?:|s)://steamcommunity\.com/profiles/([1-9][0-9]*)[/]*
    | CsgoStats     // http(?:|s)://csgostats\.gg/player/([1-9][0-9]*)[/#]*

  /** One match: the whole match is `s[start..end]`, the capture group is
      `s[capStart..capEnd]`. */
  datatype Hit = Hit(start: nat, capStart: nat, capEnd: nat, end: nat)

  const CommunityHost: string := "steamcommunity.com/id/"
  const ProfileHost: string := "steamcommunity.com/profiles/"
  const CsgoStatsHost: string := "csgostats.gg/player/"

  predicate WellPlaced(s: string, h: Hit)
  {
    h.start <= h.capStart <= h.capEnd <= h.end <= |s| && h.start < h.end
  }

  /** Nothing more of class `P` follows position `j`: a greedy repetition
      stopped there. */
  predicate StopsAt(s: string, j: nat, P: char -> bool)
  {
    j >= |s| || !P(s[j])
  }

  /** `http(?:|s)://` then the literal `host` occupy `s[i..k]`. */
  ghost predicate UrlHead(s: string, i: nat, host: string, k: nat)
  {
    || (LiteralAt(s, i, "http://") && LiteralAt(s, i + 7, host) && k == i + 7 + |host|)
    || (LiteralAt(s, i, "https://") && LiteralAt(s, i + 8, host) && k == i + 8 + |host|)
  }

  /** The scheme is matched empty alternative first: plain `http://`, and
      `https://` only when that fails. */
  function UrlBody(s: string, i: nat, host: string): (r: Option<nat>)
    ensures r.Some? ==> UrlHead(s, i, host, r.value) && r.value <= |s|
    ensures r.None? ==> forall k :: !UrlHead(s, i, host, k)
  {
    if LiteralAt(s, i, "http://") && LiteralAt(s, i + 7, host) then Some(i + 7 + |host|)
    else if LiteralAt(s, i, "https://") && LiteralAt(s, i + 8, host) then Some(i + 8 + |host|)
    else None
  }

  /** The scheme cannot be read two ways: `http://` and `https://` differ at
      their fifth character. */
  lemma UrlHeadUnique(s: string, i: nat, host: string, k1: nat, k2: nat)
    requires UrlHead(s, i, host, k1) && UrlHead(s, i, host, k2)
    ensures k1 == k2
  {
    LiteralAtMeans(s, i, "http://");
    LiteralAtMeans(s, i, "https://");
  }

  /** Whether pattern `p` matches at all at position `i`: the part of the
      pattern before its first optional repetition. */
  predicate Applies(p: Pattern, s: string, i: nat)
  {
    match p
    case SteamId => i < |s| && IsNonZeroDigit(s[i])
    case Username => i < |s| && IsHandleChar(s[i])
    case CommunityUrl => UrlBody(s, i, CommunityHost).Some?
    case ProfileUrl =>
      var b := UrlBody(s, i, ProfileHost);
      b.Some? && b.value < |s| && IsNonZeroDigit(s[b.value])
    case CsgoStats =>
      var b := UrlBody(s, i, CsgoStatsHost);
      b.Some? && b.value < |s| && IsNonZeroDigit(s[b.value])
  }

  /** What a match of `p` looks like, independently of how it is found. */
  ghost predicate Shape(p: Pattern, s: string, h: Hit)
  {
    && WellPlaced(s, h)
    && match p
       case SteamId =>
         && h.capStart == h.start && h.capEnd == h.end
         && IsCanonicalNumeral(s[h.capStart..h.capEnd])
         && StopsAt(s, h.end, IsDigit)
       case Username =>
         && h.capStart == h.start && h.capEnd == h.end
         && AllIn(s, h.capStart, h.capEnd, IsHandleChar)
         && StopsAt(s, h.end, IsHandleChar)
       case CommunityUrl =>
         && UrlHead(s, h.start, CommunityHost, h.capStart)
         && h.capEnd == h.end
         && AllIn(s, h.capStart, h.capEnd, IsNotSlash)
         && StopsAt(s, h.capEnd, IsNotSlash)
       case ProfileUrl =>
         && UrlHead(s, h.start, ProfileHost, h.capStart)
         && IsCanonicalNumeral(s[h.capStart..h.capEnd])
         && StopsAt(s, h.capEnd, IsDigit)
         && AllIn(s, h.capEnd, h.end, IsSlash)
         && StopsAt(s, h.end, IsSlash)
       case CsgoStats =>
         && UrlHead(s, h.start, CsgoStatsHost, h.capStart)
         && IsCanonicalNumeral(s[h.capStart..h.capEnd])
         && StopsAt(s, h.capEnd, IsDigit)
         && AllIn(s, h.capEnd, h.end, IsSlashOrHash)
         && StopsAt(s, h.end, IsSlashOrHash)
  }

  /** A `[1-9][0-9]*` group followed by a greedy `T*` tail, from position `b`. */
  function NumberThen(s: string, start: nat, b: nat, Tail: char -> bool): (h: Hit)
    requires start < b < |s| && IsNonZeroDigit(s[b])
    ensures WellPlaced(s, h) && h.start == start && h.capStart == b
    ensures IsCanonicalNumeral(s[h.capStart..h.capEnd]) && StopsAt(s, h.capEnd, IsDigit)
    ensures AllIn(s, h.capEnd, h.end, Tail) && StopsAt(s, h.end, Tail)
  {
    var c := RunEnd(s, b + 1, IsDigit);
    Hit(start, b, c, RunEnd(s, c, Tail))
  }

  /** The match of `p` at position `i`, if any (`re.match(s, pos=i)`). */
  function MatchAt(p: Pattern, s: string, i: nat): (r: Option<Hit>)
    requires i <= |s|
    ensures r.Some? <==> Applies(p, s, i)
    ensures r.Some? ==> r.value.start == i && Shape(p, s, r.value)
  {
    match p
    case SteamId =>
      if i < |s| && IsNonZeroDigit(s[i]) then
        var e := RunEnd(s, i + 1, IsDigit);
        Some(Hit(i, i, e, e))
      else None
    case Username =>
      if i < |s| && IsHandleChar(s[i]) then
        var e := RunEnd(s, i + 1, IsHandleChar);
        Some(Hit(i, i, e, e))
      else None
    case CommunityUrl =>
      var b := UrlBody(s, i, CommunityHost);
      if b.Some? then
        var e := RunEnd(s, b.value, IsNotSlash);
        Some(Hit(i, b.value, e, e))
      else None
    case ProfileUrl =>
      var b := UrlBody(s, i, ProfileHost);
      if b.Some? && b.value < |s| && IsNonZeroDigit(s[b.value]) then
        Some(NumberThen(s, i, b.value, IsSlash))
      else None
    case CsgoStats =>
      var b := UrlBody(s, i, CsgoStatsHost);
      if b.Some? && b.value < |s| && IsNonZeroDigit(s[b.value]) then
        Some(NumberThen(s, i, b.value, IsSlashOrHash))
      else None
  }

  /** The matcher finds exactly the match `Shape` describes: a match of the
      described form starting at `h.start` is the one `MatchAt` returns. */
  lemma MatchAtComplete(p: Pattern, s: string, h: Hit)
    requires Shape(p, s, h)
    ensures MatchAt(p, s, h.start) == Some(h)
  {
    match p
    case SteamId =>
      RunEndUnique(s, h.start + 1, h.end, IsDigit);
    case Username =>
      RunEndUnique(s, h.start + 1, h.end, IsHandleChar);
    case CommunityUrl =>
      var b := UrlBody(s, h.start, CommunityHost);
      UrlHeadUnique(s, h.start, CommunityHost, b.value, h.capStart);
      RunEndUnique(s, h.capStart, h.capEnd, IsNotSlash);
    case ProfileUrl =>
      UrlNumberComplete(s, h, ProfileHost, IsSlash);
    case CsgoStats =>
      UrlNumberComplete(s, h, CsgoStatsHost, IsSlashOrHash);
  }

  /** The two URL patterns with a numeric capture and a greedy tail: a hit of
      that shape is the one `NumberThen` builds after the URL head. */
  lemma UrlNumberComplete(s: string, h: Hit, host: string, Tail: char -> bool)
    requires WellPlaced(s, h) && UrlHead(s, h.start, host, h.capStart)
    requires IsCanonicalNumeral(s[h.capStart..h.capEnd]) && StopsAt(s, h.capEnd, IsDigit)
    requires AllIn(s, h.capEnd, h.end, Tail) && StopsAt(s, h.end, Tail)
    ensures var b := UrlBody(s, h.start, host);
            && b == Some(h.capStart) && h.capStart < |s| && IsNonZeroDigit(s[h.capStart])
            && NumberThen(s, h.start, h.capStart, Tail) == h
  {
    var b := UrlBody(s, h.start, host);
    UrlHeadUnique(s, h.start, host, b.value, h.capStart);
    assert s[h.capStart..h.capEnd][0] == s[h.capStart];
    RunEndUnique(s, h.capStart + 1, h.capEnd, IsDigit);
    RunEndUnique(s, h.capEnd, h.end, Tail);
  }

  // ---------------------------------------------------------------------
  // findall

  /** `pattern.findall(s)` from position `from`, as the list of matches: try
      each position in turn, and after a match resume where it ended (none of
      the five patterns can match the empty string). */
  function Scan(p: Pattern, s: string, from: nat): (hits: seq<Hit>)
    requires from <= |s|
    ensures StartsFrom(from, hits) && Ordered(hits)
    ensures forall k :: 0 <= k < |hits| ==> WellPlaced(s, hits[k])
    decreases |s| - from
  {
    if from == |s| then []
    else
      match MatchAt(p, s, from)
      case Some(h) =>
        var rest := Scan(p, s, h.end);
        ConsOrdered(h, rest);
        [h] + rest
      case None => Scan(p, s, from + 1)
  }

  /** Position `j` lies inside none of the matches. */
  ghost predicate Uncovered(hits: seq<Hit>, j: int)
  {
    forall k :: 0 <= k < |hits| ==> !(hits[k].start <= j < hits[k].end)
  }

  /** Every match starts at or after `from`. */
  predicate StartsFrom(from: nat, hits: seq<Hit>)
  {
    forall k :: 0 <= k < |hits| ==> from <= hits[k].start
  }

  /** Every element is a match of `p`. */
  ghost predicate AllShaped(p: Pattern, s: string, hits: seq<Hit>)
  {
    forall k {:trigger Shape(p, s, hits[k])} :: 0 <= k < |hits| ==> Shape(p, s, hits[k])
  }

  /** Every match is non-empty and ends before the next one starts. */
  predicate Ordered(hits: seq<Hit>)
  {
    && (forall k :: 0 <= k < |hits| ==> hits[k].start < hits[k].end)
    && (forall k :: 0 <= k < |hits| - 1 ==> hits[k].end <= hits[k + 1].start)
  }

  /** No position from `from` on, outside the matches, could start a match. */
  ghost predicate Exhaustive(p: Pattern, s: string, from: nat, hits: seq<Hit>)
  {
    forall j: nat {:trigger Applies(p, s, j)} :: from <= j < |s| && Uncovered(hits, j) ==> !Applies(p, s, j)
  }

  /** The reference definition of `findall` from `from`: every element is a
      match of `p` starting at or after `from`, the matches are in
      left-to-right order and do not overlap, and no position outside them
      could start a match. */
  ghost predicate IsFindAll(p: Pattern, s: string, from: nat, hits: seq<Hit>)
  {
    StartsFrom(from, hits) && AllShaped(p, s, hits) && Ordered(hits) && Exhaustive(p, s, from, hits)
  }

  /** Matches in an ordered list start in strictly increasing order. */
  lemma {:induction false} HitsAscend(hits: seq<Hit>, a: nat, b: nat)
    requires Ordered(hits)
    requires a < b < |hits|
    ensures hits[a].end <= hits[b].start
    decreases b - a
  {
    if a + 1 < b {
      HitsAscend(hits, a + 1, b);
    }
  }

  /** Putting a match in front of an ordered list that starts after it keeps
      it ordered. */
  lemma ConsOrdered(h: Hit, rest: seq<Hit>)
    requires h.start < h.end && StartsFrom(h.end, rest) && Ordered(rest)
    ensures Ordered([h] + rest)
  {
    var hits := [h] + rest;
    forall k | 0 <= k < |hits| - 1
      ensures hits[k].end <= hits[k + 1].start
    {
      assert hits[k + 1] == rest[k];
      if k > 0 {
        assert hits[k] == rest[k - 1];
      }
    }
  }

  /** The tail of an ordered list is ordered and starts after the head ends. */
  lemma TailOrdered(hits: seq<Hit>)
    requires |hits| > 0 && Ordered(hits)
    ensures Ordered(hits[1..]) && StartsFrom(hits[0].end, hits[1..])
  {
    forall k | 0 <= k < |hits| - 1
      ensures hits[0].end <= hits[1..][k].start
    {
      HitsAscend(hits, 0, k + 1);
    }
  }

  /** An ordered list whose head starts after `from` leaves `from` uncovered
      and starts after `from`. */
  lemma AllAfter(from: nat, hits: seq<Hit>)
    requires Ordered(hits) && (|hits| == 0 || from < hits[0].start)
    ensures Uncovered(hits, from) && StartsFrom(from + 1, hits)
  {
    forall k | 0 < k < |hits|
      ensures from < hits[k].start
    {
      HitsAscend(hits, 0, k);
    }
  }

  /** A position outside the head and outside every match of the tail is
      outside every match. */
  lemma UncoveredCons(hits: seq<Hit>, j: int)
    requires |hits| > 0 && Uncovered(hits[1..], j) && !(hits[0].start <= j < hits[0].end)
    ensures Uncovered(hits, j)
  {
    forall k | 0 < k < |hits|
      ensures !(hits[k].start <= j < hits[k].end)
    {
      assert hits[k] == hits[1..][k - 1];
    }
  }

  /** A position outside every match of `[h] + rest` is outside `rest`. */
  lemma UncoveredTail(h: Hit, rest: seq<Hit>, j: int)
    requires Uncovered([h] + rest, j)
    ensures Uncovered(rest, j) && !(h.start <= j < h.end)
  {
    var hits := [h] + rest;
    assert hits[0] == h;
    forall k | 0 <= k < |rest|
      ensures !(rest[k].start <= j < rest[k].end)
    {
      assert rest[k] == hits[k + 1];
    }
  }

  /** One step of the scan where a match starts at `from`. */
  lemma ScanAtMatch(p: Pattern, s: string, from: nat, h: Hit)
    requires from < |s| && MatchAt(p, s, from) == Some(h)
    ensures Scan(p, s, from) == [h] + Scan(p, s, h.end)
  {
  }

  /** One step of the scan where nothing starts at `from`. */
  lemma ScanPastMiss(p: Pattern, s: string, from: nat)
    requires from < |s| && !Applies(p, s, from)
    ensures Scan(p, s, from) == Scan(p, s, from + 1)
  {
  }

  /** A match in front of a list of matches gives a list of matches. */
  lemma ShapedCons(p: Pattern, s: string, h: Hit, rest: seq<Hit>)
    requires Shape(p, s, h) && AllShaped(p, s, rest)
    ensures AllShaped(p, s, [h] + rest)
  {
    var hits := [h] + rest;
    forall k | 0 <= k < |hits|
      ensures Shape(p, s, hits[k])
    {
      if k == 0 {
        assert hits[k] == h;
      } else {
        assert hits[k] == rest[k - 1];
        assert Shape(p, s, rest[k - 1]);
      }
    }
  }

  /** A match from `from` to `h.end` in front of a list that leaves nothing
      out from `h.end` on leaves nothing out from `from` on. */
  lemma ExhaustiveCons(p: Pattern, s: string, from: nat, h: Hit, rest: seq<Hit>)
    requires h.start == from && Exhaustive(p, s, h.end, rest)
    ensures Exhaustive(p, s, from, [h] + rest)
  {
    forall j: nat | from <= j < |s| && Uncovered([h] + rest, j)
      ensures !Applies(p, s, j)
    {
      UncoveredTail(h, rest, j);
    }
  }

  /** The match found at `from`, when the pattern applies there. */
  lemma FirstHit(p: Pattern, s: string, from: nat) returns (h: Hit)
    requires from < |s| && Applies(p, s, from)
    ensures h.start == from < h.end <= |s| && Shape(p, s, h)
    ensures Scan(p, s, from) == [h] + Scan(p, s, h.end)
  {
    h := MatchAt(p, s, from).value;
    ScanAtMatch(p, s, from, h);
  }

  /** Every match the scan reports has the pattern's shape. */
  lemma {:induction false} ScanAllShaped(p: Pattern, s: string, from: nat)
    requires from <= |s|
    ensures AllShaped(p, s, Scan(p, s, from))
    decreases |s| - from
  {
    if from < |s| && Applies(p, s, from) {
      var h := FirstHit(p, s, from);
      ScanAllShaped(p, s, h.end);
      ShapedCons(p, s, h, Scan(p, s, h.end));
    } else if from < |s| {
      ScanPastMiss(p, s, from);
      ScanAllShaped(p, s, from + 1);
    }
  }

  /** The scan skips no position where a match could start. */
  lemma {:induction false} ScanExhaustive(p: Pattern, s: string, from: nat)
    requires from <= |s|
    ensures Exhaustive(p, s, from, Scan(p, s, from))
    decreases |s| - from
  {
    if from < |s| && Applies(p, s, from) {
      var h := FirstHit(p, s, from);
      ScanExhaustive(p, s, h.end);
      ExhaustiveCons(p, s, from, h, Scan(p, s, h.end));
    } else if from < |s| {
      ScanPastMiss(p, s, from);
      ScanExhaustive(p, s, from + 1);
    }
  }

  /** `Scan` meets the reference definition. */
  lemma ScanIsFindAll(p: Pattern, s: string, from: nat)
    requires from <= |s|
    ensures IsFindAll(p, s, from, Scan(p, s, from))
  {
    ScanAllShaped(p, s, from);
    ScanExhaustive(p, s, from);
  }

  /** Two matches of the same pattern starting at the same position are the
      same match. */
  lemma ShapeUnique(p: Pattern, s: string, h1: Hit, h2: Hit)
    requires Shape(p, s, h1) && Shape(p, s, h2) && h1.start == h2.start
    ensures h1 == h2
  {
    MatchAtComplete(p, s, h1);
    MatchAtComplete(p, s, h2);
  }

  /** A match of the pattern's shape starting at `j` means the pattern
      applies at `j`. */
  lemma ShapeApplies(p: Pattern, s: string, h: Hit)
    requires Shape(p, s, h)
    ensures Applies(p, s, h.start)
  {
    MatchAtComplete(p, s, h);
  }

  /** Dropping a `findall` list's first match leaves `findall` from the end
      of that match. */
  lemma DropFirstMatch(p: Pattern, s: string, from: nat, hits: seq<Hit>)
    requires |hits| > 0
    requires IsFindAll(p, s, from, hits)
    ensures from < hits[0].end <= |s| && IsFindAll(p, s, hits[0].end, hits[1..])
  {
    var h, rest := hits[0], hits[1..];
    assert Shape(p, s, h);
    TailOrdered(hits);
    forall k | 0 <= k < |rest|
      ensures Shape(p, s, rest[k])
    {
      assert rest[k] == hits[k + 1];
      assert Shape(p, s, hits[k + 1]);
    }
    forall j: nat | h.end <= j < |s| && Uncovered(rest, j)
      ensures !Applies(p, s, j)
    {
      UncoveredCons(hits, j);
    }
  }

  /** The first match of a `findall` list cannot start after a position
      where another `findall` list from the same point has a match. */
  lemma NoEarlierMatch(p: Pattern, s: string, from: nat, a: seq<Hit>, b: seq<Hit>)
    requires IsFindAll(p, s, from, a) && IsFindAll(p, s, from, b)
    requires |a| > 0
    ensures |b| > 0 && b[0].start <= a[0].start
  {
    if |b| == 0 || a[0].start < b[0].start {
      assert Shape(p, s, a[0]);
      ShapeApplies(p, s, a[0]);
      AllAfter(a[0].start, b);
      assert false;
    }
  }

  /** Any two lists meeting the reference definition from the same position
      are equal. */
  lemma {:induction false} FindAllListsEqual(p: Pattern, s: string, from: nat, a: seq<Hit>, b: seq<Hit>)
    requires IsFindAll(p, s, from, a) && IsFindAll(p, s, from, b)
    ensures a == b
    decreases |a|
  {
    if |a| > 0 {
      NoEarlierMatch(p, s, from, a, b);
      NoEarlierMatch(p, s, from, b, a);
      assert Shape(p, s, a[0]) && Shape(p, s, b[0]);
      ShapeUnique(p, s, a[0], b[0]);
      DropFirstMatch(p, s, from, a);
      DropFirstMatch(p, s, from, b);
      FindAllListsEqual(p, s, a[0].end, a[1..], b[1..]);
      assert a == [a[0]] + a[1..];
      assert b == [b[0]] + b[1..];
    } else if |b| > 0 {
      NoEarlierMatch(p, s, from, b, a);
    }
  }

  /** There is only one list meeting the reference definition, so `Scan` is
      exactly `findall`. */
  lemma FindAllUnique(p: Pattern, s: string, from: nat, hits: seq<Hit>)
    requires from <= |s|
    requires IsFindAll(p, s, from, hits)
    ensures hits == Scan(p, s, from)
  {
    ScanIsFindAll(p, s, from);
    FindAllListsEqual(p, s, from, hits, Scan(p, s, from));
  }
}
