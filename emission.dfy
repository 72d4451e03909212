/** Which result blocks the scraper writes (tap.js lines 196-262), in
    isolation from what a block turns into. A running count of written
    blocks is compared with the cap after every write; a hit ends only the
    current page's `each` loop, so the next page starts again. */
module Emission {
  import opened Text
  import opened JsNumbers

  /** `resultsProcessed == numResults`: the count `c` equals the cap. A NaN
      cap never equals anything. */
  predicate Hits(c: nat, cap: Num) {
    cap == Int(c)
  }

  /** How many blocks of one page are written when `c` were written before
      it: up to and including the block whose count hits the cap, or all. */
  function PageTake<T>(page: seq<T>, c: nat, cap: Num): (k: nat)
    ensures k <= |page|
    ensures page != [] ==> k >= 1
    ensures cap.Int? ==> !(c < cap.i < c + k)
    ensures k < |page| ==> Hits(c + k, cap)
    decreases |page|
  {
    if page == [] then 0
    else if Hits(c + 1, cap) then 1
    else 1 + PageTake(page[1..], c + 1, cap)
  }

  /** The blocks written from `pages`, `c` having been written before: no
      more than the pages hold, and always the first block of the first
      page, since the cap is tested only after a write. */
  function Emit<T>(pages: seq<seq<T>>, c: nat, cap: Num): (r: seq<T>)
    ensures |r| <= |Flatten(pages)|
    ensures pages != [] && pages[0] != [] ==> r != [] && r[0] == pages[0][0]
    decreases |pages|
  {
    if pages == [] then []
    else
      var k := PageTake(pages[0], c, cap);
      pages[0][..k] + Emit(pages[1..], c + k, cap)
  }

  /** All blocks of all pages, in order. */
  function Flatten<T>(pages: seq<seq<T>>): seq<T>
    decreases |pages|
  {
    if pages == [] then [] else pages[0] + Flatten(pages[1..])
  }

  /** A page on which the cap cannot be hit is written whole. */
  lemma {:induction false} PageTakeAll<T>(page: seq<T>, c: nat, cap: Num)
    requires cap.NaN? || cap.i <= c
    ensures PageTake(page, c, cap) == |page|
    decreases |page|
  {
    if page != [] {
      PageTakeAll(page[1..], c + 1, cap);
    }
  }

  /** With no cap in reach — a NaN cap, or a count already at or past it —
      every block of every page is written. In particular a cap of zero or
      less, and every page after the one where the cap was hit. */
  lemma {:induction false} EmitUncapped<T>(pages: seq<seq<T>>, c: nat, cap: Num)
    requires cap.NaN? || cap.i <= c
    ensures Emit(pages, c, cap) == Flatten(pages)
    decreases |pages|
  {
    if pages != [] {
      PageTakeAll(pages[0], c, cap);
      assert pages[0][..|pages[0]|] == pages[0];
      EmitUncapped(pages[1..], c + |pages[0]|, cap);
    }
  }

  /** When the cap falls on the last page, exactly the first `cap - c`
      blocks are written: the count stays below the cap through the earlier
      pages and hits it on the last. */
  lemma {:induction false} EmitCapOnLastPage<T>(init: seq<seq<T>>, last: seq<T>, c: nat, k: int)
    requires c + |Flatten(init)| < k <= c + |Flatten(init)| + |last|
    ensures Emit(init + [last], c, Int(k)) == Flatten(init) + last[..k - c - |Flatten(init)|]
    decreases |init|
  {
    if init == [] {
      assert init + [last] == [last];
      EmitSingle(last, c, k);
    } else {
      EmitCapOnLastPage(init[1..], last, c + |init[0]|, k);
      EmitCapStep(init, last, c, k);
    }
  }

  lemma EmitSingle<T>(last: seq<T>, c: nat, k: int)
    requires c < k <= c + |last|
    ensures Emit([last], c, Int(k)) == last[..k - c]
  {
    var t := PageTake(last, c, Int(k));
    assert t == k - c;
    EmitPage([last], c, Int(k), t);
    assert [last][1..] == [];
  }

  /** One page before the last, given the claim for the pages after it. */
  lemma EmitCapStep<T>(init: seq<seq<T>>, last: seq<T>, c: nat, k: int)
    requires init != []
    requires c + |Flatten(init)| < k <= c + |Flatten(init)| + |last|
    requires Flatten(init) == init[0] + Flatten(init[1..])
    requires Emit(init[1..] + [last], c + |init[0]|, Int(k)) == Flatten(init[1..]) + last[..k - c - |Flatten(init)|]
    ensures Emit(init + [last], c, Int(k)) == Flatten(init) + last[..k - c - |Flatten(init)|]
  {
    var pages := init + [last];
    var p := init[0];
    ConsLast(init, last);
    EmitWholeFirst(pages, c, k);
    FirstPageGlue(Emit(pages, c, Int(k)), p, Emit(init[1..] + [last], c + |p|, Int(k)), Flatten(init), Flatten(init[1..]), last[..k - c - |Flatten(init)|]);
  }

  lemma ConsLast<T>(init: seq<T>, last: T)
    requires init != []
    ensures (init + [last])[0] == init[0] && (init + [last])[1..] == init[1..] + [last]
  {
  }

  /** A first page that ends before the cap is written whole. */
  lemma EmitWholeFirst<T>(pages: seq<seq<T>>, c: nat, k: int)
    requires pages != [] && c + |pages[0]| < k
    ensures Emit(pages, c, Int(k)) == pages[0] + Emit(pages[1..], c + |pages[0]|, Int(k))
  {
    PageTakeBelow(pages[0], c, k);
    EmitPage(pages, c, Int(k), |pages[0]|);
  }

  lemma FirstPageGlue<T>(e: seq<T>, p: seq<T>, e1: seq<T>, f: seq<T>, f1: seq<T>, tail: seq<T>)
    requires e == p + e1 && e1 == f1 + tail && f == p + f1
    ensures e == f + tail
  {
    AppendAssoc(p, f1, tail);
  }

  /** `Emit` of a first page whose take is `t`. */
  lemma EmitPage<T>(pages: seq<seq<T>>, c: nat, cap: Num, t: nat)
    requires pages != [] && t == PageTake(pages[0], c, cap)
    ensures Emit(pages, c, cap) == pages[0][..t] + Emit(pages[1..], c + t, cap)
  {
  }

  /** A page that ends before the cap is written whole. */
  lemma PageTakeBelow<T>(p: seq<T>, c: nat, k: int)
    requires c + |p| < k
    ensures PageTake(p, c, Int(k)) == |p| && p[..PageTake(p, c, Int(k))] == p
  {
    assert p[..|p|] == p;
  }

  /** The cap is checked per page: once a first page of at least `k` blocks
      hits it, the later pages are still written whole. */
  lemma CapOverrun<T>(first: seq<T>, later: seq<seq<T>>, k: nat)
    requires 1 <= k <= |first|
    ensures Emit([first] + later, 0, Int(k)) == first[..k] + Flatten(later)
  {
    var pages := [first] + later;
    assert pages[0] == first && pages[1..] == later;
    assert PageTake(first, 0, Int(k)) == k;
    EmitUncapped(later, k, Int(k));
  }
}
