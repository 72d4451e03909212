/** The two commands (tap.js lines 147-264): `category` lists the make or
    model titles of a category page; `search` fetches the first results
    page, reads the result count from its heading, fetches the remaining
    pages one after another and writes one record per result block, with
    the listing page's details in deep mode. */
module Search {
  import opened Wrappers
  import opened Text
  import opened JsNumbers
  import opened Url
  import opened Fetcher
  import opened ResultCount
  import opened Listing
  import opened Emission

  /** What the scraper reads from a fetched page, through its selectors:
      the results heading, the result blocks, a listing page's detail
      sections, and the titles of a category page's links. */
  datatype Dom = Dom(
    heading: string -> string,
    blocks: string -> seq<RawBlock>,
    details: string -> Details,
    titles: string -> seq<string>)

  /** One search run's fixed inputs: the options, deep mode, the network,
      the page reader and the time stamp of the run. */
  datatype Env = Env(o: Options, deep: bool, net: Oracle, dom: Dom, now: int)

  /** Records written so far, the count of written records, whether a fetch
      fault aborted the run, and the attempts made so far. */
  datatype Emitted = Emitted(records: seq<Record>, count: nat, aborted: bool, clock: nat)

  /** The result of a whole command. */
  datatype SearchRun = SearchRun(records: seq<Record>, aborted: bool, clock: nat)

  const ShowAllMakes: string := "Show All Makes"

  /** Some fetch of the listing page of `r`'s block, made at clock `clock` or
      later, gave the page whose sections `r` holds. */
  ghost predicate DeepRecord(env: Env, r: Record, clock: nat) {
    exists t: nat :: t >= clock && Fetcher.Fetch(env.net, ListingURL(r.block.id), t).result.Body?
      && r.details == Some(env.dom.details(Fetcher.Fetch(env.net, ListingURL(r.block.id), t).result.text))
  }

  /** The record of one block as written: in deep mode with the sections of
      its listing page, fetched at clock `clock`; none when that fetch
      faults. Also the clock after it. */
  function Written(env: Env, b: RawBlock, clock: nat): (r: (Option<Record>, nat))
    ensures r.1 >= clock
    ensures r.0.Some? ==> r.0.value.block == b && r.0.value.fetchDate == env.now
    ensures !env.deep ==> r.0.Some? && r.0.value.details.None? && r.1 == clock
    ensures r.0.None? ==> env.deep && Fetcher.Fetch(env.net, ListingURL(b.id), clock).result.Fault?
  {
    var rec := Record(b, env.now, None);
    if !env.deep then (Some(rec), clock)
    else
      var f := Fetcher.Fetch(env.net, ListingURL(b.id), clock);
      match f.result
      case Fault => (None, clock + f.attempts)
      case Body(text) => (Some(rec.(details := Some(env.dom.details(text)))), clock + f.attempts)
  }

  /** In deep mode the record holds the sections of the listing page the
      fetch gave. */
  lemma WrittenDeep(env: Env, b: RawBlock, clock: nat)
    requires env.deep
    ensures var (rec, _) := Written(env, b, clock); rec.Some? ==> DeepRecord(env, rec.value, clock)
  {
    var f := Fetcher.Fetch(env.net, ListingURL(b.id), clock);
    if f.result.Body? {
      assert Written(env, b, clock).0.value.details == Some(env.dom.details(f.result.text));
    }
  }

  /** The `each` loop over one page's blocks, `c` records written before:
      the count rises by one per record, at most one record per block, and
      only a listing fetch in deep mode can abort it. */
  function WriteBlocks(env: Env, cap: Num, blocks: seq<RawBlock>, c: nat, clock: nat): (r: Emitted)
    ensures r.count == c + |r.records| && |r.records| <= |blocks|
    ensures r.clock >= clock
    ensures r.aborted ==> env.deep
    decreases |blocks|
  {
    if blocks == [] then Emitted([], c, false, clock)
    else
      var (rec, clock') := Written(env, blocks[0], clock);
      if rec.None? then Emitted([], c, true, clock')
      else if Hits(c + 1, cap) then Emitted([rec.value], c + 1, false, clock')
      else
        var rest := WriteBlocks(env, cap, blocks[1..], c + 1, clock');
        Emitted([rec.value] + rest.records, rest.count, rest.aborted, rest.clock)
  }

  /** After one page's blocks: stop on a fault, otherwise go on with the
      remaining pages. */
  function AfterPage(env: Env, cap: Num, e: Emitted, later: seq<string>): (r: Emitted)
    ensures e.records <= r.records && r.count - |r.records| == e.count - |e.records|
    ensures r.clock >= e.clock
    ensures r.aborted ==> e.aborted || env.deep
    decreases |later|, 1
  {
    if e.aborted then e
    else
      var rest := WritePages(env, cap, later, e.count, e.clock);
      Emitted(e.records + rest.records, rest.count, rest.aborted, rest.clock)
  }

  /** The loop over the fetched page texts: the count rises by one per
      record, and only a listing fetch in deep mode can abort it. */
  function WritePages(env: Env, cap: Num, texts: seq<string>, c: nat, clock: nat): (r: Emitted)
    ensures r.count == c + |r.records|
    ensures r.clock >= clock
    ensures r.aborted ==> env.deep
    decreases |texts|, 0
  {
    if texts == [] then Emitted([], c, false, clock)
    else AfterPage(env, cap, WriteBlocks(env, cap, env.dom.blocks(texts[0]), c, clock), texts[1..])
  }

  /** Page texts fetched in order, whether a fault stopped the fetching, and
      the clock after it. */
  datatype FetchedPages = FetchedPages(texts: seq<string>, aborted: bool, clock: nat)

  /** The loop fetching the pages after the first, one after another. */
  function FetchAll(net: Oracle, urls: seq<string>, clock: nat): (r: FetchedPages)
    ensures |r.texts| <= |urls|
    ensures !r.aborted ==> |r.texts| == |urls|
    ensures r.clock >= clock
    decreases |urls|
  {
    if urls == [] then FetchedPages([], false, clock)
    else
      var f := Fetcher.Fetch(net, urls[0], clock);
      match f.result
      case Fault => FetchedPages([], true, clock + f.attempts)
      case Body(text) =>
        var rest := FetchAll(net, urls[1..], clock + f.attempts);
        FetchedPages([text] + rest.texts, rest.aborted, rest.clock)
  }

  /** Some fetch of `url`, made at clock `clock` or later, gave `res`. */
  ghost predicate FetchedAt(net: Oracle, url: string, clock: nat, res: Fetched) {
    exists t: nat :: t >= clock && Fetcher.Fetch(net, url, t).result == res
  }

  /** Each fetched text is the body of a fetch of the URL at its position,
      and a stop is a fault of the fetch of the next URL. */
  lemma {:induction false} FetchAllContents(net: Oracle, urls: seq<string>, clock: nat)
    ensures var r := FetchAll(net, urls, clock);
      && (forall k :: 0 <= k < |r.texts| ==> FetchedAt(net, urls[k], clock, Body(r.texts[k])))
      && (r.aborted ==> |r.texts| < |urls| && FetchedAt(net, urls[|r.texts|], clock, Fault))
    decreases |urls|
  {
    if urls != [] {
      var f := Fetcher.Fetch(net, urls[0], clock);
      if f.result.Fault? {
        assert FetchedAt(net, urls[0], clock, Fault);
      } else {
        var c' := clock + f.attempts;
        var rest := FetchAll(net, urls[1..], c');
        assert FetchAll(net, urls, clock) == FetchedPages([f.result.text] + rest.texts, rest.aborted, rest.clock);
        FetchAllContents(net, urls[1..], c');
        FetchedLater(net, urls, clock, c', f.result.text, rest, FetchAll(net, urls, clock));
      }
    }
  }

  /** `FetchAllContents` carried from the URLs after the first to all. */
  lemma FetchedLater(net: Oracle, urls: seq<string>, clock: nat, c': nat, text: string, rest: FetchedPages, r: FetchedPages)
    requires urls != [] && c' >= clock && |rest.texts| <= |urls| - 1
    requires Fetcher.Fetch(net, urls[0], clock).result == Body(text)
    requires r == FetchedPages([text] + rest.texts, rest.aborted, rest.clock)
    requires forall k :: 0 <= k < |rest.texts| ==> FetchedAt(net, urls[1..][k], c', Body(rest.texts[k]))
    requires rest.aborted ==> |rest.texts| < |urls[1..]| && FetchedAt(net, urls[1..][|rest.texts|], c', Fault)
    ensures forall k :: 0 <= k < |r.texts| ==> FetchedAt(net, urls[k], clock, Body(r.texts[k]))
    ensures r.aborted ==> |r.texts| < |urls| && FetchedAt(net, urls[|r.texts|], clock, Fault)
  {
    forall k | 0 <= k < |r.texts|
      ensures FetchedAt(net, urls[k], clock, Body(r.texts[k]))
    {
      if k == 0 {
        assert Fetcher.Fetch(net, urls[0], clock).result == Body(r.texts[0]);
      } else {
        assert urls[1..][k - 1] == urls[k] && rest.texts[k - 1] == r.texts[k];
        FetchedEarlier(net, urls[k], clock, c', Body(r.texts[k]));
      }
    }
    if r.aborted {
      assert urls[1..][|rest.texts|] == urls[|r.texts|];
      FetchedEarlier(net, urls[|r.texts|], clock, c', Fault);
    }
  }

  lemma FetchedEarlier(net: Oracle, url: string, clock: nat, c': nat, res: Fetched)
    requires c' >= clock && FetchedAt(net, url, c', res)
    ensures FetchedAt(net, url, clock, res)
  {
    var t: nat :| t >= c' && Fetcher.Fetch(net, url, t).result == res;
  }

  /** The URLs of pages 1 to `total`. */
  function PageURLList(url: string, total: nat): seq<string> {
    seq(total, k requires 0 <= k < total => PageURL(url, k + 1))
  }

  /** `slice(1, length)`: all but the first; nothing when there is none. */
  function AfterFirst(urls: seq<string>): seq<string> {
    if urls == [] then [] else urls[1..]
  }

  /** After the first page, the pages 2 to `total` are fetched, in order,
      each from a URL of its own that differs from the search URL the
      first page came from. */
  lemma LaterPages(url: string, total: nat)
    requires total >= 1
    ensures var later := AfterFirst(PageURLList(url, total));
      && |later| == total - 1
      && (forall k :: 0 <= k < |later| ==> later[k] == PageURL(url, k + 2))
      && (forall i, j :: 0 <= i < j < |later| ==> later[i] != later[j])
      && (forall k :: 0 <= k < |later| ==> later[k] != url)
  {
    var later := AfterFirst(PageURLList(url, total));
    forall i, j | 0 <= i < j < |later|
      ensures later[i] != later[j]
    {
      if later[i] == later[j] {
        PageURLInjective(url, i + 2, j + 2);
      }
    }
    forall k | 0 <= k < |later|
      ensures later[k] != url
    {
      assert |later[k]| > |url|;
    }
  }

  /** The search command. The first fetch is made with clock 0. */
  function Search(env: Env, cap: Cap): (r: SearchRun)
    ensures forall x :: x in r.records ==> x.fetchDate == env.now
    ensures env.deep ==> forall x :: x in r.records ==> DeepRecord(env, x, 0)
  {
    SearchFrom(env, cap, BuildURL(env.o, "search").value)
  }

  /** The search command once its URL is built: records are written only
      when the first page arrives and its heading reports a count. */
  function SearchFrom(env: Env, cap: Cap, url: string): (r: SearchRun)
    ensures forall x :: x in r.records ==> x.fetchDate == env.now
    ensures env.deep ==> forall x :: x in r.records ==> DeepRecord(env, x, 0)
    ensures r.records != [] ==> var first := Fetcher.Fetch(env.net, url, 0);
      first.result.Body? && CountOf(env.dom.heading(first.result.text)).Some?
    ensures r.clock >= 1
  {
    var first := Fetcher.Fetch(env.net, url, 0);
    match first.result
    case Fault => SearchRun([], true, first.attempts)
    case Body(text) =>
      match CountOf(env.dom.heading(text))
      case None => SearchRun([], false, first.attempts)
      case Some(count) => ResultsFrom(env, EffectiveCap(count, cap), url, text, first.attempts)
  }

  /** The rest of a search whose first page `text` reported a count, capped
      to `n`: the other pages fetched, then every page's blocks written. */
  function ResultsFrom(env: Env, n: Num, url: string, text: string, clock: nat): (r: SearchRun)
    ensures forall x :: x in r.records ==> x.fetchDate == env.now
    ensures env.deep ==> forall x :: x in r.records ==> DeepRecord(env, x, clock)
    ensures r.clock >= clock
  {
    var pages := FetchAll(env.net, AfterFirst(PageURLList(url, PageCount(n))), clock);
    if pages.aborted then SearchRun([], true, pages.clock)
    else
      var e := WritePages(env, n, [text] + pages.texts, 0, pages.clock);
      StampedPages(env, n, [text] + pages.texts, 0, pages.clock);
      if env.deep then
        DeepPages(env, n, [text] + pages.texts, 0, pages.clock);
        assert forall x :: x in e.records ==> DeepRecord(env, x, clock) by {
          forall x | x in e.records
            ensures DeepRecord(env, x, clock)
          {
            DeepEarlier(env, x, clock, pages.clock);
          }
        }
        SearchRun(e.records, e.aborted, e.clock)
      else SearchRun(e.records, e.aborted, e.clock)
  }

  // ---------------------------------------------------------------------
  // What the search writes.

  /** The blocks of each page text. */
  function BlocksOf(dom: Dom, texts: seq<string>): (r: seq<seq<RawBlock>>)
    ensures |r| == |texts|
    ensures forall k :: 0 <= k < |texts| ==> r[k] == dom.blocks(texts[k])
  {
    seq(|texts|, k requires 0 <= k < |texts| => dom.blocks(texts[k]))
  }

  /** Each block as a record without details. */
  function RecordsOf(blocks: seq<RawBlock>, now: int): (r: seq<Record>)
    ensures |r| == |blocks|
  {
    seq(|blocks|, k requires 0 <= k < |blocks| => Record(blocks[k], now, None))
  }

  /** The blocks `Emit` selects: those of the first page, then those of the rest. */
  lemma EmitFirstPage(dom: Dom, texts: seq<string>, c: nat, cap: Num)
    requires texts != []
    ensures var blocks := dom.blocks(texts[0]);
      var k := PageTake(blocks, c, cap);
      Emit(BlocksOf(dom, texts), c, cap) == blocks[..k] + Emit(BlocksOf(dom, texts[1..]), c + k, cap)
  {
    var pages := BlocksOf(dom, texts);
    assert pages[0] == dom.blocks(texts[0]);
    assert pages[1..] == BlocksOf(dom, texts[1..]);
  }

  /** Without deep mode one page writes the cleaned form of the blocks up
      to the cap, and nothing is fetched. */
  lemma {:induction false} WriteBlocksShallow(env: Env, cap: Num, blocks: seq<RawBlock>, c: nat, clock: nat)
    requires !env.deep
    ensures var k := PageTake(blocks, c, cap);
      WriteBlocks(env, cap, blocks, c, clock) == Emitted(RecordsOf(blocks[..k], env.now), c + k, false, clock)
    decreases |blocks|
  {
    if blocks != [] {
      if !Hits(c + 1, cap) {
        WriteBlocksShallow(env, cap, blocks[1..], c + 1, clock);
        ShallowBlocksStep(env, cap, blocks, c, clock, WriteBlocks(env, cap, blocks[1..], c + 1, clock), PageTake(blocks[1..], c + 1, cap));
      } else {
        assert blocks[..1] == [blocks[0]];
      }
    }
  }

  lemma ShallowBlocksStep(env: Env, cap: Num, blocks: seq<RawBlock>, c: nat, clock: nat, rest: Emitted, k: nat)
    requires !env.deep && blocks != [] && !Hits(c + 1, cap)
    requires k == PageTake(blocks[1..], c + 1, cap)
    requires rest == WriteBlocks(env, cap, blocks[1..], c + 1, clock)
    requires rest == Emitted(RecordsOf(blocks[1..][..k], env.now), c + 1 + k, false, clock)
    ensures PageTake(blocks, c, cap) == 1 + k
    ensures WriteBlocks(env, cap, blocks, c, clock) == Emitted(RecordsOf(blocks[..1 + k], env.now), c + 1 + k, false, clock)
  {
    assert blocks[..1 + k] == [blocks[0]] + blocks[1..][..k];
    RecordsOfAppend([blocks[0]], blocks[1..][..k], env.now);
  }

  /** Without deep mode the run writes exactly the cleaned form of the
      blocks `Emit` selects, never aborts and fetches nothing more. */
  lemma {:induction false} WritePagesShallow(env: Env, cap: Num, texts: seq<string>, c: nat, clock: nat)
    requires !env.deep
    ensures var sel := Emit(BlocksOf(env.dom, texts), c, cap);
      WritePages(env, cap, texts, c, clock) == Emitted(RecordsOf(sel, env.now), c + |sel|, false, clock)
    decreases |texts|
  {
    if texts != [] {
      var k := PageTake(env.dom.blocks(texts[0]), c, cap);
      WritePagesShallow(env, cap, texts[1..], c + k, clock);
      ShallowPagesStep(env, cap, texts, c, clock, k, Emit(BlocksOf(env.dom, texts[1..]), c + k, cap), WritePages(env, cap, texts[1..], c + k, clock));
    }
  }

  lemma ShallowPagesStep(env: Env, cap: Num, texts: seq<string>, c: nat, clock: nat, k: nat, sel: seq<RawBlock>, rest: Emitted)
    requires !env.deep && texts != []
    requires k == PageTake(env.dom.blocks(texts[0]), c, cap)
    requires sel == Emit(BlocksOf(env.dom, texts[1..]), c + k, cap)
    requires rest == WritePages(env, cap, texts[1..], c + k, clock)
    requires rest == Emitted(RecordsOf(sel, env.now), c + k + |sel|, false, clock)
    ensures var all := Emit(BlocksOf(env.dom, texts), c, cap);
      WritePages(env, cap, texts, c, clock) == Emitted(RecordsOf(all, env.now), c + |all|, false, clock)
  {
    var blocks := env.dom.blocks(texts[0]);
    EmitFirstPage(env.dom, texts, c, cap);
    FirstPageShallow(env, cap, texts, c, clock, k, rest);
    ShallowGlue(WritePages(env, cap, texts, c, clock), Emit(BlocksOf(env.dom, texts), c, cap), blocks[..k], sel, env.now, c, clock, k, rest);
  }

  lemma FirstPageShallow(env: Env, cap: Num, texts: seq<string>, c: nat, clock: nat, k: nat, rest: Emitted)
    requires !env.deep && texts != []
    requires k == PageTake(env.dom.blocks(texts[0]), c, cap)
    requires rest == WritePages(env, cap, texts[1..], c + k, clock)
    ensures |env.dom.blocks(texts[0])[..k]| == k
    ensures WritePages(env, cap, texts, c, clock)
      == Emitted(RecordsOf(env.dom.blocks(texts[0])[..k], env.now) + rest.records, rest.count, rest.aborted, rest.clock)
  {
    var d1 := Emitted(RecordsOf(env.dom.blocks(texts[0])[..k], env.now), c + k, false, clock);
    WriteBlocksShallow(env, cap, env.dom.blocks(texts[0]), c, clock);
    AfterPageOk(env, cap, d1, texts[1..], rest);
  }

  lemma AfterPageOk(env: Env, cap: Num, e: Emitted, later: seq<string>, rest: Emitted)
    requires !e.aborted && rest == WritePages(env, cap, later, e.count, e.clock)
    ensures AfterPage(env, cap, e, later) == Emitted(e.records + rest.records, rest.count, rest.aborted, rest.clock)
  {
  }

  /** One page written without a fault, then the rest. */
  lemma WritePagesCons(env: Env, cap: Num, texts: seq<string>, c: nat, clock: nat, d1: Emitted, rest: Emitted)
    requires texts != []
    requires d1 == WriteBlocks(env, cap, env.dom.blocks(texts[0]), c, clock) && !d1.aborted
    requires rest == WritePages(env, cap, texts[1..], d1.count, d1.clock)
    ensures WritePages(env, cap, texts, c, clock) == Emitted(d1.records + rest.records, rest.count, rest.aborted, rest.clock)
  {
  }

  lemma ShallowGlue(w: Emitted, all: seq<RawBlock>, xs: seq<RawBlock>, ys: seq<RawBlock>, now: int, c: nat, clock: nat,
                    k: nat, rest: Emitted)
    requires all == xs + ys && |xs| == k
    requires w == Emitted(RecordsOf(xs, now) + rest.records, rest.count, rest.aborted, rest.clock)
    requires rest == Emitted(RecordsOf(ys, now), c + k + |ys|, false, clock)
    ensures w == Emitted(RecordsOf(all, now), c + |all|, false, clock)
  {
    RecordsOfAppend(xs, ys, now);
  }

  /** A record without its listing details. */
  function Shallow(r: Record): Record {
    r.(details := None)
  }

  function ShallowAll(rs: seq<Record>): (r: seq<Record>)
    ensures |r| == |rs|
    ensures forall k :: 0 <= k < |rs| ==> r[k] == Shallow(rs[k])
  {
    seq(|rs|, k requires 0 <= k < |rs| => Shallow(rs[k]))
  }

  lemma ShallowAllAppend(xs: seq<Record>, ys: seq<Record>)
    ensures ShallowAll(xs + ys) == ShallowAll(xs) + ShallowAll(ys)
  {
  }

  lemma RecordsOfAppend(xs: seq<RawBlock>, ys: seq<RawBlock>, now: int)
    ensures RecordsOf(xs + ys, now) == RecordsOf(xs, now) + RecordsOf(ys, now)
  {
  }

  /** Deep mode writes, on one page, the records a shallow run writes with
      details added: the same blocks up to the cap, unless a listing fetch
      faults, which cuts the records short. The clocks of the two runs may
      differ, since only the deep run fetches. */
  lemma {:induction false} WriteBlocksDeep(env: Env, cap: Num, blocks: seq<RawBlock>, c: nat, clock: nat, clock2: nat)
    ensures var d := WriteBlocks(env, cap, blocks, c, clock);
      var s := WriteBlocks(env.(deep := false), cap, blocks, c, clock2);
      && ShallowAll(d.records) <= s.records
      && (!d.aborted ==> ShallowAll(d.records) == s.records && d.count == s.count)
    decreases |blocks|
  {
    if blocks != [] {
      var (rec, clock') := Written(env, blocks[0], clock);
      var shallow := Record(blocks[0], env.now, None);
      assert Written(env.(deep := false), blocks[0], clock2) == (Some(shallow), clock2);
      if rec.Some? {
        assert Shallow(rec.value) == shallow;
        if !Hits(c + 1, cap) {
          WriteBlocksDeep(env, cap, blocks[1..], c + 1, clock', clock2);
          var d := WriteBlocks(env, cap, blocks[1..], c + 1, clock');
          var s := WriteBlocks(env.(deep := false), cap, blocks[1..], c + 1, clock2);
          ConsJoin(rec.value, d.records, s.records);
        } else {
          ConsJoin(rec.value, [], []);
        }
      }
    }
  }

  /** The same over all pages. */
  lemma {:induction false} WritePagesDeep(env: Env, cap: Num, texts: seq<string>, c: nat, clock: nat, clock2: nat)
    ensures var d := WritePages(env, cap, texts, c, clock);
      var s := WritePages(env.(deep := false), cap, texts, c, clock2);
      && ShallowAll(d.records) <= s.records
      && (!d.aborted ==> ShallowAll(d.records) == s.records && d.count == s.count)
    decreases |texts|
  {
    if texts != [] {
      var blocks := env.dom.blocks(texts[0]);
      WriteBlocksDeep(env, cap, blocks, c, clock, clock2);
      var d1 := WriteBlocks(env, cap, blocks, c, clock);
      var s1 := WriteBlocks(env.(deep := false), cap, blocks, c, clock2);
      WriteBlocksShallow(env.(deep := false), cap, blocks, c, clock2);
      var s2 := WritePages(env.(deep := false), cap, texts[1..], s1.count, s1.clock);
      WritePagesCons(env.(deep := false), cap, texts, c, clock2, s1, s2);
      if d1.aborted {
        PrefixExtend(ShallowAll(d1.records), s1.records, s2.records);
      } else {
        WritePagesDeep(env, cap, texts[1..], d1.count, d1.clock, s1.clock);
        var d2 := WritePages(env, cap, texts[1..], d1.count, d1.clock);
        WritePagesCons(env, cap, texts, c, clock, d1, d2);
        PagesJoin(d1.records, d2.records, s1.records, s2.records);
      }
    }
  }

  /** Deep mode writes the cleaned form of the blocks `Emit` selects, each
      with the sections of its own listing page: all of them unless a
      listing fetch faulted, and then a prefix of them. */
  lemma DeepSelection(env: Env, cap: Num, texts: seq<string>, c: nat, clock: nat)
    ensures var d := WritePages(env, cap, texts, c, clock);
      var sel := Emit(BlocksOf(env.dom, texts), c, cap);
      && ShallowAll(d.records) <= RecordsOf(sel, env.now)
      && (!d.aborted ==> ShallowAll(d.records) == RecordsOf(sel, env.now) && d.count == c + |sel|)
      && (env.deep ==> forall r :: r in d.records ==> DeepRecord(env, r, clock))
  {
    WritePagesDeep(env, cap, texts, c, clock, clock);
    WritePagesShallow(env.(deep := false), cap, texts, c, clock);
    if env.deep {
      DeepPages(env, cap, texts, c, clock);
    }
  }

  /** In deep mode every record written holds the sections of its own
      listing page, as a fetch made during the run gave it. */
  lemma {:induction false} DeepBlocks(env: Env, cap: Num, blocks: seq<RawBlock>, c: nat, clock: nat)
    requires env.deep
    ensures forall r :: r in WriteBlocks(env, cap, blocks, c, clock).records ==> DeepRecord(env, r, clock)
    decreases |blocks|
  {
    if blocks != [] {
      var (rec, clock') := Written(env, blocks[0], clock);
      WrittenDeep(env, blocks[0], clock);
      if rec.Some? && !Hits(c + 1, cap) {
        DeepBlocks(env, cap, blocks[1..], c + 1, clock');
        forall r | r in WriteBlocks(env, cap, blocks[1..], c + 1, clock').records
          ensures DeepRecord(env, r, clock)
        {
          DeepEarlier(env, r, clock, clock');
        }
      }
    }
  }

  lemma {:induction false} DeepPages(env: Env, cap: Num, texts: seq<string>, c: nat, clock: nat)
    requires env.deep
    ensures forall r :: r in WritePages(env, cap, texts, c, clock).records ==> DeepRecord(env, r, clock)
    decreases |texts|
  {
    if texts != [] {
      var e := WriteBlocks(env, cap, env.dom.blocks(texts[0]), c, clock);
      DeepBlocks(env, cap, env.dom.blocks(texts[0]), c, clock);
      if !e.aborted {
        DeepPages(env, cap, texts[1..], e.count, e.clock);
        forall r | r in WritePages(env, cap, texts[1..], e.count, e.clock).records
          ensures DeepRecord(env, r, clock)
        {
          DeepEarlier(env, r, clock, e.clock);
        }
      }
    }
  }

  lemma DeepEarlier(env: Env, r: Record, clock: nat, c': nat)
    requires c' >= clock && DeepRecord(env, r, c')
    ensures DeepRecord(env, r, clock)
  {
    var t: nat :| t >= c' && Fetcher.Fetch(env.net, ListingURL(r.block.id), t).result.Body?
      && r.details == Some(env.dom.details(Fetcher.Fetch(env.net, ListingURL(r.block.id), t).result.text));
  }

  lemma ConsJoin(r: Record, xs: seq<Record>, ys: seq<Record>)
    requires ShallowAll(xs) <= ys
    ensures ShallowAll([r] + xs) <= [Shallow(r)] + ys
    ensures ShallowAll(xs) == ys ==> ShallowAll([r] + xs) == [Shallow(r)] + ys
  {
    ShallowAllAppend([r], xs);
    PrefixConcat([Shallow(r)], ShallowAll(xs), ys);
  }

  lemma PagesJoin(x1: seq<Record>, x2: seq<Record>, y1: seq<Record>, y2: seq<Record>)
    requires ShallowAll(x1) == y1 && ShallowAll(x2) <= y2
    ensures ShallowAll(x1 + x2) <= y1 + y2
    ensures ShallowAll(x2) == y2 ==> ShallowAll(x1 + x2) == y1 + y2
  {
    ShallowAllAppend(x1, x2);
    PrefixConcat(y1, ShallowAll(x2), y2);
  }

  lemma PrefixExtend<T>(x: seq<T>, y: seq<T>, z: seq<T>)
    requires x <= y
    ensures x <= y + z
  {
    assert (y + z)[..|y|] == y;
  }

  lemma PrefixConcat<T>(x: seq<T>, u: seq<T>, v: seq<T>)
    requires u <= v
    ensures x + u <= x + v
  {
    assert (x + v)[..|x + u|] == x + v[..|u|];
  }

  /** Every written record carries the run's time stamp. */
  lemma {:induction false} StampedBlocks(env: Env, cap: Num, blocks: seq<RawBlock>, c: nat, clock: nat)
    ensures forall r :: r in WriteBlocks(env, cap, blocks, c, clock).records ==> r.fetchDate == env.now
    decreases |blocks|
  {
    if blocks != [] {
      var (rec, clock') := Written(env, blocks[0], clock);
      if rec.Some? && !Hits(c + 1, cap) {
        StampedBlocks(env, cap, blocks[1..], c + 1, clock');
      }
    }
  }

  lemma {:induction false} StampedPages(env: Env, cap: Num, texts: seq<string>, c: nat, clock: nat)
    ensures forall r :: r in WritePages(env, cap, texts, c, clock).records ==> r.fetchDate == env.now
    decreases |texts|
  {
    if texts != [] {
      var e := WriteBlocks(env, cap, env.dom.blocks(texts[0]), c, clock);
      StampedBlocks(env, cap, env.dom.blocks(texts[0]), c, clock);
      if !e.aborted {
        StampedPages(env, cap, texts[1..], e.count, e.clock);
      }
    }
  }

  /** A search without deep mode whose page fetches all answer writes
      exactly the blocks `Emit` selects from the fetched pages, capped by
      the effective cap, each stamped with the run's time. */
  lemma SearchShallow(env: Env, cap: Cap, url: string)
    requires !env.deep
    ensures var r := SearchFrom(env, cap, url);
      var first := Fetcher.Fetch(env.net, url, 0);
      first.result.Body? ==>
        match CountOf(env.dom.heading(first.result.text))
        case None => r == SearchRun([], false, first.attempts)
        case Some(count) =>
          var n := EffectiveCap(count, cap);
          var pages := FetchAll(env.net, AfterFirst(PageURLList(url, PageCount(n))), first.attempts);
          !pages.aborted ==>
            r.records == RecordsOf(Emit(BlocksOf(env.dom, [first.result.text] + pages.texts), 0, n), env.now)
            && !r.aborted
  {
    var first := Fetcher.Fetch(env.net, url, 0);
    if first.result.Body? {
      var text := first.result.text;
      match CountOf(env.dom.heading(text))
      case None =>
      case Some(count) =>
        var n := EffectiveCap(count, cap);
        var pages := FetchAll(env.net, AfterFirst(PageURLList(url, PageCount(n))), first.attempts);
        assert SearchFrom(env, cap, url) == ResultsFrom(env, n, url, text, first.attempts);
        if !pages.aborted {
          var e := WritePages(env, n, [text] + pages.texts, 0, pages.clock);
          assert SearchFrom(env, cap, url) == SearchRun(e.records, e.aborted, e.clock);
          WritePagesShallow(env, n, [text] + pages.texts, 0, pages.clock);
        }
    }
  }

  /** A deep search whose page fetches all answer writes the blocks `Emit`
      selects, each with its listing's sections added: all of them, or a
      prefix of them when a listing fetch faults. */
  lemma SearchDeep(env: Env, cap: Cap, url: string)
    requires env.deep
    ensures var r := SearchFrom(env, cap, url);
      var first := Fetcher.Fetch(env.net, url, 0);
      first.result.Body? ==>
        match CountOf(env.dom.heading(first.result.text))
        case None => r == SearchRun([], false, first.attempts)
        case Some(count) =>
          var n := EffectiveCap(count, cap);
          var pages := FetchAll(env.net, AfterFirst(PageURLList(url, PageCount(n))), first.attempts);
          var sel := RecordsOf(Emit(BlocksOf(env.dom, [first.result.text] + pages.texts), 0, n), env.now);
          !pages.aborted ==>
            ShallowAll(r.records) <= sel
            && (!r.aborted ==> ShallowAll(r.records) == sel)
  {
    var first := Fetcher.Fetch(env.net, url, 0);
    if first.result.Body? {
      var text := first.result.text;
      match CountOf(env.dom.heading(text))
      case None =>
      case Some(count) =>
        var n := EffectiveCap(count, cap);
        var pages := FetchAll(env.net, AfterFirst(PageURLList(url, PageCount(n))), first.attempts);
        assert SearchFrom(env, cap, url) == ResultsFrom(env, n, url, text, first.attempts);
        if !pages.aborted {
          var e := WritePages(env, n, [text] + pages.texts, 0, pages.clock);
          assert SearchFrom(env, cap, url) == SearchRun(e.records, e.aborted, e.clock);
          DeepSelection(env, n, [text] + pages.texts, 0, pages.clock);
        }
    }
  }

  /** Without deep mode every record written carries the search's date and
      no listing details. */
  lemma SearchShallowRecords(env: Env, cap: Cap, url: string)
    requires !env.deep
    ensures forall x :: x in SearchFrom(env, cap, url).records ==> x.fetchDate == env.now && x.details.None?
  {
    var first := Fetcher.Fetch(env.net, url, 0);
    if first.result.Body? {
      var text := first.result.text;
      match CountOf(env.dom.heading(text))
      case None =>
      case Some(count) =>
        var n := EffectiveCap(count, cap);
        var pages := FetchAll(env.net, AfterFirst(PageURLList(url, PageCount(n))), first.attempts);
        if !pages.aborted {
          WritePagesShallow(env, n, [text] + pages.texts, 0, pages.clock);
        }
    }
  }

  /** A first page whose heading does not report a count ends the search
      with nothing written and nothing more fetched. */
  lemma SearchUnmatched(env: Env, cap: Cap, url: string, text: string)
    requires Fetcher.Fetch(env.net, url, 0).result == Body(text)
    requires ShowingMatch(RemoveSpaces(env.dom.heading(text))).None?
    ensures SearchFrom(env, cap, url) == SearchRun([], false, Fetcher.Fetch(env.net, url, 0).attempts)
  {
    assert CountOf(env.dom.heading(text)).None?;
  }

  // ---------------------------------------------------------------------
  // The loops.

  /** One step of the page loop, given what the fetch of its URL gives. */
  lemma FetchAllStep(net: Oracle, urls: seq<string>, i: nat, clock: nat, r: Fetched, attempts: nat)
    requires i < |urls|
    requires Fetcher.Fetch(net, urls[i], clock).result == r
    requires Fetcher.Fetch(net, urls[i], clock).attempts == attempts
    ensures r.Fault? ==> FetchAll(net, urls[i..], clock) == FetchedPages([], true, clock + attempts)
    ensures r.Body? ==>
      var rest := FetchAll(net, urls[i + 1..], clock + attempts);
      FetchAll(net, urls[i..], clock) == FetchedPages([r.text] + rest.texts, rest.aborted, rest.clock)
  {
    assert urls[i..][0] == urls[i] && urls[i..][1..] == urls[i + 1..];
  }

  /** The page loop's invariant carried over one fetched page `t`. */
  lemma FetchedShift(whole: FetchedPages, texts: seq<string>, t: string, here: FetchedPages, rest: FetchedPages)
    requires here == FetchedPages([t] + rest.texts, rest.aborted, rest.clock)
    requires whole == FetchedPages(texts + here.texts, here.aborted, here.clock)
    ensures whole == FetchedPages((texts + [t]) + rest.texts, rest.aborted, rest.clock)
  {
    AppendAssoc(texts, [t], rest.texts);
  }

  /** The page loop's invariant over one more fetch, at clock `c`. */
  lemma FetchLoopStep(net: Oracle, urls: seq<string>, clock: nat, i: nat, texts: seq<string>, c: nat, r: Fetched, attempts: nat)
    requires i < |urls|
    requires Fetcher.Fetch(net, urls[i], c).result == r
    requires Fetcher.Fetch(net, urls[i], c).attempts == attempts
    requires var here := FetchAll(net, urls[i..], c);
      FetchAll(net, urls, clock) == FetchedPages(texts + here.texts, here.aborted, here.clock)
    ensures r.Fault? ==> FetchAll(net, urls, clock).aborted && FetchAll(net, urls, clock).clock == c + attempts
    ensures r.Body? ==> var rest := FetchAll(net, urls[i + 1..], c + attempts);
      FetchAll(net, urls, clock) == FetchedPages((texts + [r.text]) + rest.texts, rest.aborted, rest.clock)
  {
    FetchAllStep(net, urls, i, c, r, attempts);
    if r.Body? {
      FetchedShift(FetchAll(net, urls, clock), texts, r.text, FetchAll(net, urls[i..], c), FetchAll(net, urls[i + 1..], c + attempts));
    }
  }

  /** The page loop: each URL fetched in turn; a fault ends it. */
  method FetchPages(net: Oracle, urls: seq<string>, clock: nat) returns (texts: seq<string>, aborted: bool, clock': nat)
    ensures aborted == FetchAll(net, urls, clock).aborted && clock' == FetchAll(net, urls, clock).clock
    ensures !aborted ==> texts == FetchAll(net, urls, clock).texts
  {
    texts, aborted, clock' := [], false, clock;
    var i := 0;
    assert urls[0..] == urls;
    while i < |urls|
      invariant 0 <= i <= |urls|
      invariant var rest := FetchAll(net, urls[i..], clock');
        FetchAll(net, urls, clock) == FetchedPages(texts + rest.texts, rest.aborted, rest.clock)
    {
      var r, attempts, _ := TapFetchSync(urls[i], net, clock');
      FetchLoopStep(net, urls, clock, i, texts, clock', r, attempts);
      ghost var next := FetchAll(net, urls[i + 1..], clock' + attempts);
      clock' := clock' + attempts;
      if r.Fault? {
        aborted := true;
        return;
      }
      texts := texts + [r.text];
      i := i + 1;
      assert FetchAll(net, urls, clock) == FetchedPages(texts + next.texts, next.aborted, next.clock);
    }
  }

  /** Deep mode's fetch of a listing page: the id option set to the
      listing's id, the listing URL built from the options and fetched. */
  method FetchListing(opts: Options, id: string, net: Oracle, clock: nat)
      returns (opts': Options, r: Fetched, attempts: nat)
    ensures opts' == opts.(id := id)
    ensures r == Fetcher.Fetch(net, ListingURL(id), clock).result
    ensures attempts == Fetcher.Fetch(net, ListingURL(id), clock).attempts
  {
    opts' := opts.(id := id);
    var url := BuildURL(opts', "listing").value;
    var sleeps;
    r, attempts, sleeps := TapFetchSync(url, net, clock);
  }

  /** The body of the blocks loop for one block: the record, in deep mode
      completed from the listing page, or none when that fetch faults. */
  method WriteOne(env: Env, b: RawBlock, opts: Options, clock: nat)
      returns (rec: Option<Record>, clock': nat, opts': Options)
    ensures (rec, clock') == Written(env, b, clock)
  {
    var r := Record(b, env.now, None);
    clock', opts' := clock, opts;
    if env.deep {
      var f, attempts;
      opts', f, attempts := FetchListing(opts, r.Id(), env.net, clock);
      clock' := clock + attempts;
      if f.Fault? {
        return None, clock', opts';
      }
      r := r.(details := Some(env.dom.details(f.text)));
    }
    rec := Some(r);
  }

  /** One step of the blocks loop, given what the block's write gives. */
  lemma WriteBlocksStep(env: Env, cap: Num, blocks: seq<RawBlock>, j: nat, c: nat, clock: nat,
                        rec: Option<Record>, clock': nat)
    requires j < |blocks|
    requires Written(env, blocks[j], clock) == (rec, clock')
    ensures WriteBlocks(env, cap, blocks[j..], c, clock) ==
      if rec.None? then Emitted([], c, true, clock')
      else if Hits(c + 1, cap) then Emitted([rec.value], c + 1, false, clock')
      else
        var rest := WriteBlocks(env, cap, blocks[j + 1..], c + 1, clock');
        Emitted([rec.value] + rest.records, rest.count, rest.aborted, rest.clock)
  {
    assert blocks[j..][0] == blocks[j] && blocks[j..][1..] == blocks[j + 1..];
  }

  /** One step of the pages loop. */
  lemma WritePagesStep(env: Env, cap: Num, texts: seq<string>, i: nat, c: nat, clock: nat)
    requires i < |texts|
    ensures WritePages(env, cap, texts[i..], c, clock) ==
      AfterPage(env, cap, WriteBlocks(env, cap, env.dom.blocks(texts[i]), c, clock), texts[i + 1..])
  {
    assert texts[i..][0] == texts[i] && texts[i..][1..] == texts[i + 1..];
  }

  /** The `each` loop over one page's blocks, the count checked after every
      write. `opts` carries the id of the last listing fetched. */
  method WritePage(env: Env, cap: Num, blocks: seq<RawBlock>, opts: Options, count: nat, clock: nat)
      returns (records: seq<Record>, count': nat, aborted: bool, clock': nat, opts': Options)
    ensures Emitted(records, count', aborted, clock') == WriteBlocks(env, cap, blocks, count, clock)
  {
    records, count', aborted, clock', opts' := [], count, false, clock, opts;
    var j := 0;
    assert blocks[0..] == blocks;
    while j < |blocks|
      invariant 0 <= j <= |blocks|
      invariant var e := WriteBlocks(env, cap, blocks[j..], count', clock');
        WriteBlocks(env, cap, blocks, count, clock) == Emitted(records + e.records, e.count, e.aborted, e.clock)
    {
      var rec, clk;
      rec, clk, opts' := WriteOne(env, blocks[j], opts', clock');
      WriteBlocksStep(env, cap, blocks, j, count', clock', rec, clk);
      clock' := clk;
      if rec.None? {
        AppendEmpty(records);
        aborted := true;
        return;
      }
      ghost var before := records;
      records := records + [rec.value];
      count' := count' + 1;
      if Hits(count', cap) {
        AppendEmpty(records);
        return;
      }
      ghost var rest := WriteBlocks(env, cap, blocks[j + 1..], count', clock');
      AppendAssoc(before, [rec.value], rest.records);
      j := j + 1;
      assert WriteBlocks(env, cap, blocks, count, clock) == Emitted(records + rest.records, rest.count, rest.aborted, rest.clock);
    }
    assert blocks[j..] == [];
    AppendEmpty(records);
  }

  /** The loop over the page texts, the first page's included. */
  method WriteListings(env: Env, cap: Num, texts: seq<string>, clock: nat)
      returns (records: seq<Record>, count: nat, aborted: bool, clock': nat)
    ensures Emitted(records, count, aborted, clock') == WritePages(env, cap, texts, 0, clock)
  {
    records, count, aborted, clock' := [], 0, false, clock;
    var opts := env.o;
    var i := 0;
    assert texts[0..] == texts;
    while i < |texts|
      invariant 0 <= i <= |texts|
      invariant var e := WritePages(env, cap, texts[i..], count, clock');
        WritePages(env, cap, texts, 0, clock) == Emitted(records + e.records, e.count, e.aborted, e.clock)
    {
      WritePagesStep(env, cap, texts, i, count, clock');
      var page, failed;
      page, count, failed, clock', opts := WritePage(env, cap, env.dom.blocks(texts[i]), opts, count, clock');
      ghost var before := records;
      records := records + page;
      if failed {
        aborted := true;
        return;
      }
      ghost var rest := WritePages(env, cap, texts[i + 1..], count, clock');
      AppendAssoc(before, page, rest.records);
      i := i + 1;
    }
    assert texts[i..] == [];
    AppendEmpty(records);
  }

  /** The page fetches and the writing, after the first page. */
  method WriteResults(env: Env, n: Num, url: string, text: string, clock: nat)
      returns (records: seq<Record>, aborted: bool, clock': nat)
    ensures SearchRun(records, aborted, clock') == ResultsFrom(env, n, url, text, clock)
  {
    var urls := PageURLs(url, PageCount(n));
    assert urls == PageURLList(url, PageCount(n));
    var rest := if urls == [] then [] else urls[1..];
    var texts, failed, clk := FetchPages(env.net, rest, clock);
    if failed {
      return [], true, clk;
    }
    var count;
    records, count, aborted, clock' := WriteListings(env, n, [text] + texts, clk);
  }

  /** `searchCmd` once the search URL is built. */
  method SearchPages(env: Env, cap: Cap, url: string) returns (records: seq<Record>, aborted: bool, clock: nat)
    ensures SearchRun(records, aborted, clock) == SearchFrom(env, cap, url)
  {
    var first, attempts, _ := TapFetchSync(url, env.net, 0);
    if first.Fault? {
      return [], true, attempts;
    }
    var found := CountOf(env.dom.heading(first.text));
    if found.None? {
      return [], false, attempts;
    }
    records, aborted, clock := WriteResults(env, EffectiveCap(found.value, cap), url, first.text, attempts);
  }

  /** `searchCmd`. */
  method SearchCmd(env: Env, cap: Cap) returns (records: seq<Record>, aborted: bool, clock: nat)
    ensures SearchRun(records, aborted, clock) == Search(env, cap)
  {
    var url := BuildURL(env.o, "search").value;
    records, aborted, clock := SearchPages(env, cap, url);
  }

  // ---------------------------------------------------------------------
  // The category command.

  /** The printed titles: each trimmed, "Show All Makes" left out. */
  function Levels(titles: seq<string>): (r: seq<string>)
    ensures |r| <= |titles|
    ensures forall x :: x in r ==> Trimmed(x) && x != ShowAllMakes
  {
    if titles == [] then []
    else
      var rest := Levels(titles[1..]);
      var level := Trim(titles[0]);
      if level != ShowAllMakes then [level] + rest else rest
  }

  /** Some title trims to `x`. */
  predicate TrimsTo(titles: seq<string>, x: string) {
    exists k :: 0 <= k < |titles| && Trim(titles[k]) == x
  }

  lemma TrimsToCons(titles: seq<string>, x: string)
    requires titles != []
    ensures TrimsTo(titles, x) <==> Trim(titles[0]) == x || TrimsTo(titles[1..], x)
  {
    if TrimsTo(titles[1..], x) {
      var k :| 0 <= k < |titles[1..]| && Trim(titles[1..][k]) == x;
      assert Trim(titles[k + 1]) == x;
    }
    if TrimsTo(titles, x) && Trim(titles[0]) != x {
      var k :| 0 <= k < |titles| && Trim(titles[k]) == x;
      assert k > 0 && Trim(titles[1..][k - 1]) == x;
    }
  }

  /** A title is printed, trimmed, exactly when its trimmed form is not
      "Show All Makes"; nothing else is printed. */
  lemma {:induction false} LevelsMembers(titles: seq<string>, x: string)
    ensures x in Levels(titles) <==> TrimsTo(titles, x) && x != ShowAllMakes
  {
    if titles != [] {
      LevelsMembers(titles[1..], x);
      TrimsToCons(titles, x);
    }
  }

  /** The category command's result: the printed titles, whether the fetch
      faulted, and the attempts made. */
  datatype CategoryRun = CategoryRun(levels: seq<string>, aborted: bool, clock: nat)

  function Category(o: Options, net: Oracle, dom: Dom): (r: CategoryRun)
    ensures ShowAllMakes !in r.levels
    ensures r.aborted ==> r.levels == []
  {
    CategoryFrom(net, dom, BuildURL(o, "category").value)
  }

  /** The category command once its URL is built: the titles of the
      fetched page as `Levels` gives them, nothing after a fault. */
  function CategoryFrom(net: Oracle, dom: Dom, url: string): (r: CategoryRun)
    ensures r.aborted <==> Fetcher.Fetch(net, url, 0).result.Fault?
    ensures r.aborted ==> r.levels == []
    ensures ShowAllMakes !in r.levels
  {
    var f := Fetcher.Fetch(net, url, 0);
    match f.result
    case Fault => CategoryRun([], true, f.attempts)
    case Body(text) => CategoryRun(Levels(dom.titles(text)), false, f.attempts)
  }

  /** The `each` loop printing the titles. */
  method PrintLevels(titles: seq<string>) returns (levels: seq<string>)
    ensures levels == Levels(titles)
  {
    levels := [];
    var k := 0;
    assert titles[0..] == titles;
    while k < |titles|
      invariant 0 <= k <= |titles|
      invariant levels + Levels(titles[k..]) == Levels(titles)
    {
      assert titles[k..][1..] == titles[k + 1..];
      var level := Trim(titles[k]);
      ghost var before := levels;
      if level != ShowAllMakes {
        levels := levels + [level];
        AppendAssoc(before, [level], Levels(titles[k + 1..]));
      }
      k := k + 1;
    }
    assert titles[k..] == [];
    AppendEmpty(levels);
  }

  /** `categoryCmd`. */
  method CategoryCmd(o: Options, net: Oracle, dom: Dom) returns (levels: seq<string>, aborted: bool, clock: nat)
    ensures CategoryRun(levels, aborted, clock) == Category(o, net, dom)
  {
    var url := BuildURL(o, "category").value;
    var r, attempts, _ := TapFetchSync(url, net, 0);
    if r.Fault? {
      return [], true, attempts;
    }
    levels := PrintLevels(dom.titles(r.text));
    aborted, clock := false, attempts;
  }
}
