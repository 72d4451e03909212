/** How many results a search reports and how many pages the scraper then
    requests (tap.js lines 169-186): the heading match, the optional cap, the
    page count and the page URLs. */
module ResultCount {
  import opened Wrappers
  import opened Text
  import opened JsNumbers
  import opened Url

  const ShowingWord: string := "Showing"
  const OfWord: string := "of"
  const ResultWord: string := "result"

  /** The regular expression `^Showing.*of(.*)results*` matches with its
      "of" at `i` and its "result" at `l`. */
  predicate MatchesAt(s: string, i: nat, l: nat) {
    StartsWith(s, ShowingWord) && |ShowingWord| <= i && i + |OfWord| <= l
    && Occurs(s, OfWord, i) && Occurs(s, ResultWord, l)
  }

  /** The match the regular expression reports: both `.*` are greedy, so the
      "of" is the last one that still leaves a "result" after it, and the
      capture runs to the last "result". */
  function ShowingMatch(s: string): (r: Option<(nat, nat)>)
    ensures r.Some? ==> MatchesAt(s, r.value.0, r.value.1)
    ensures r.Some? ==> forall i: nat, l: nat :: MatchesAt(s, i, l) ==> i < r.value.0 || (i == r.value.0 && l <= r.value.1)
    ensures r.None? ==> forall i: nat, l: nat :: !MatchesAt(s, i, l)
  {
    if !StartsWith(s, ShowingWord) then None
    else
      match LastOcc(s, ResultWord, 0, |s| - |ResultWord|)
      case None => None
      case Some(l) =>
        match LastOcc(s, OfWord, |ShowingWord|, l - |OfWord|)
        case None =>
          assert forall i: nat, l': nat :: MatchesAt(s, i, l') ==> l' <= l && Occurs(s, OfWord, i);
          None
        case Some(i) =>
          assert forall i': nat, l': nat :: MatchesAt(s, i', l') ==> l' <= l;
          Some((i, l))
  }

  /** The count text of a heading: white space removed, the capture of the
      match with its thousands separators deleted. None when the heading is
      empty or does not match. */
  function CountText(heading: string): (r: Option<string>)
    ensures r.Some? <==> heading != "" && ShowingMatch(RemoveSpaces(heading)).Some?
    ensures r.Some? ==> ',' !in r.value
  {
    if heading == "" then None
    else
      var s := RemoveSpaces(heading);
      match ShowingMatch(s)
      case None => None
      case Some((i, l)) => Some(DeleteChar(s[i + |OfWord|..l], ','))
  }

  /** The number the heading reports: the count text read by
      `parseInt(_, 10)`. */
  function CountOf(heading: string): (r: Option<Num>)
    ensures r.Some? <==> CountText(heading).Some?
  {
    match CountText(heading)
    case None => None
    case Some(t) => Some(ParseInt10(t))
  }

  /** The match is the last "result" and the last "of" before it. */
  lemma MatchIsLast(s: string, i: nat, l: nat)
    requires MatchesAt(s, i, l)
    requires forall k: nat :: l < k ==> !Occurs(s, ResultWord, k)
    requires forall k: nat :: i < k <= l - |OfWord| ==> !Occurs(s, OfWord, k)
    ensures ShowingMatch(s) == Some((i, l))
  {
    var m := ShowingMatch(s);
    assert m.Some?;
    assert m.value.1 == l;
  }

  /** A heading whose match captures the decimal form of `n`, with or
      without thousands separators, reports `n`. */
  lemma CountReadsBack(heading: string, i: nat, l: nat, n: nat)
    requires heading != ""
    requires ShowingMatch(RemoveSpaces(heading)) == Some((i, l))
    requires DeleteChar(RemoveSpaces(heading)[i + |OfWord|..l], ',') == NatToString(n)
    ensures CountOf(heading) == Some(Int(n))
  {
    CountTextOfMatch(heading, i, l, NatToString(n));
    NatToStringRoundTrip(n);
  }

  /** The count text is the capture with its separators deleted. */
  lemma CountTextOfMatch(heading: string, i: nat, l: nat, t: string)
    requires heading != ""
    requires ShowingMatch(RemoveSpaces(heading)) == Some((i, l))
    requires DeleteChar(RemoveSpaces(heading)[i + |OfWord|..l], ',') == t
    ensures CountText(heading) == Some(t)
  {
  }

  /** A capture with a thousands separator, as "1,234", reports the number
      its digits spell, as 1234. */
  lemma CountWithSeparator(heading: string, i: nat, l: nat, a: string, b: string, n: nat)
    requires heading != ""
    requires ShowingMatch(RemoveSpaces(heading)) == Some((i, l))
    requires RemoveSpaces(heading)[i + |OfWord|..l] == a + "," + b
    requires ',' !in a && ',' !in b && a + b == NatToString(n)
    ensures CountOf(heading) == Some(Int(n))
  {
    DeleteSeparator(a, ',', b);
    CountReadsBack(heading, i, l, n);
  }

  /** The `--number` option: absent (Infinity) or the number it parsed to. */
  datatype Cap = Unlimited | Limit(n: Num)

  /** `Math.min(count, number)`, where NaN on either side gives NaN. */
  function EffectiveCap(count: Num, cap: Cap): (r: Num)
    ensures cap.Unlimited? ==> r == count
    ensures r.NaN? <==> count.NaN? || cap == Limit(NaN)
    ensures r.Int? ==> r.i <= count.i && (cap.Limit? ==> r.i <= cap.n.i)
    ensures r.Int? ==> r.i == count.i || (cap.Limit? && r.i == cap.n.i)
  {
    match cap
    case Unlimited => count
    case Limit(m) =>
      if count.NaN? || m.NaN? then NaN
      else if count.i <= m.i then count else m
  }

  /** The number of pages as the scraper computes it: one page up to 96
      results, otherwise `Math.round(n / 96)` plus one more page whenever
      96 does not divide `n`. NaN fails the page loop's test at once, so
      no page URL is made at all. */
  function PageCount(n: Num): (r: nat)
    ensures n.Int? ==> r >= 1
    ensures n.Int? && n.i <= MaxPageSize as int ==> r == 1
  {
    match n
    case NaN => 0
    case Int(k) =>
      if k <= MaxPageSize as int then 1
      else (k + MaxPageSize / 2) / MaxPageSize as int + (if k % MaxPageSize as int != 0 then 1 else 0)
  }

  /** The pages actually needed for `k` results: one page for up to 96, then
      as many as hold all results. */
  function PagesNeeded(k: int): (p: nat)
    ensures k > 0 ==> (p - 1) * MaxPageSize < k <= p * MaxPageSize
    ensures k <= MaxPageSize as int ==> p == 1
  {
    if k <= MaxPageSize as int then 1 else (k + MaxPageSize - 1) / MaxPageSize as int
  }

  /** Every number of results gets at least one page, and enough pages to
      hold them all. */
  lemma PageCountCovers(k: int)
    ensures PageCount(Int(k)) >= 1
    ensures k > 0 ==> PageCount(Int(k)) * MaxPageSize >= k
  {
  }

  /** The page count agrees with the pages needed exactly when the rounding
      rounds down (the remainder is below 48 of 96), and is one page too many
      otherwise. */
  lemma PageCountVersusNeeded(k: int)
    ensures PageCount(Int(k)) == PagesNeeded(k) <==> k <= MaxPageSize as int || k % MaxPageSize as int < MaxPageSize / 2
    ensures PageCount(Int(k)) == PagesNeeded(k) || PageCount(Int(k)) == PagesNeeded(k) + 1
  {
    if k > MaxPageSize as int {
      var q, m := k / MaxPageSize as int, k % MaxPageSize as int;
      assert k == q * MaxPageSize + m;
      if m == 0 {
        assert (k + 48) / 96 == q;
        assert (k + 95) / 96 == q;
      } else if m < 48 {
        assert (k + 48) / 96 == q;
        assert (k + 95) / 96 == q + 1;
      } else {
        assert (k + 48) / 96 == q + 1;
        assert (k + 95) / 96 == q + 1;
      }
    }
  }

  /** 150 results make three page requests where two suffice. */
  lemma PageCountOverCounts()
    ensures PageCount(Int(150)) == 3 && PagesNeeded(150) == 2
  {
  }

  /** A multiple of the page size makes exactly that many pages. */
  lemma PageCountMultiple(q: nat)
    requires q >= 1
    ensures PageCount(Int(q * MaxPageSize)) == q
  {
    if q > 1 {
      assert (q * 96 + 48) / 96 == q;
      assert (q * 96) % 96 == 0;
    }
  }

  /** The URL of result page `p`. */
  function PageURL(url: string, p: nat): string {
    url + "&s-page=" + NatToString(p)
  }

  /** Different pages have different URLs. */
  lemma PageURLInjective(url: string, p: nat, q: nat)
    requires PageURL(url, p) == PageURL(url, q)
    ensures p == q
  {
    var pre := url + "&s-page=";
    assert PageURL(url, p) == pre + NatToString(p);
    assert PageURL(url, q) == pre + NatToString(q);
    assert NatToString(p) == PageURL(url, p)[|pre|..];
    assert NatToString(q) == PageURL(url, q)[|pre|..];
    NatToStringInjective(p, q);
  }

  /** The page loop: the URLs of pages 1 to `total`, in order. */
  method PageURLs(url: string, total: nat) returns (urls: seq<string>)
    ensures |urls| == total
    ensures forall k :: 0 <= k < total ==> urls[k] == PageURL(url, k + 1)
  {
    urls := [];
    var page := 1;
    while page <= total
      invariant 1 <= page <= total + 1
      invariant |urls| == page - 1
      invariant forall k :: 0 <= k < page - 1 ==> urls[k] == PageURL(url, k + 1)
    {
      urls := urls + [PageURL(url, page)];
      page := page + 1;
    }
  }
}
