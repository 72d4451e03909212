/** Turning one `.result_listing` block of a results page into the record
    the scraper writes (tap.js lines 204-236), and the detail sections of a
    listing page in deep mode (lines 237-255). */
module Listing {
  import opened Wrappers
  import opened Text
  import opened JsNumbers
  import opened Url

  /** The raw texts of one result block, as the page gives them: the
      listing, model-group and seller attributes, the title link's text and
      `href`, and the texts of the price, registration, total-time, address
      and last-update areas. */
  datatype RawBlock = RawBlock(
    id: string, modelGroup: string, sellerId: string,
    title: string, href: string,
    price: string, registration: string, totalTime: string,
    address: string, lastUpdate: string)

  /** The seven sections of a listing page, raw and trimmed alike. */
  datatype Details = Details(
    specs: string, description: string, avionics: string, airframe: string,
    engine: string, intExt: string, remarks: string)

  /** The record fields read from the title link's query. */
  datatype LinkField = Make | Model | Type | Category

  /** A written record: the result block it was read from, the run's time
      stamp and, in deep mode, the detail sections of its listing page as
      read; each member function below is one field of the written object,
      computed from these. */
  datatype Record = Record(block: RawBlock, fetchDate: int, details: Option<Details>)
  {
    function Id(): string { block.id }
    function ModelGroup(): (r: string)
      ensures Trimmed(r) && |r| <= |block.modelGroup|
    { Trim(block.modelGroup) }
    function SellerId(): string { block.sellerId }
    function Title(): (r: string)
      ensures Trimmed(r) && |r| <= |block.title|
    { Trim(block.title) }
    /** make, model, type and category, from the title link's query. */
    function Links(): map<LinkField, string> { LinkFields(block.href) }
    /** The title's first word when `parseInt` reads a number from it,
        otherwise "Not Listed"; a listed year is a space-free word the
        title starts with. */
    function Year(): (r: string)
      ensures r == NotListed || (' ' !in r && StartsWith(Title(), r))
      ensures !ParseIntIsNaN(Split(Title(), ' ')[0]) <==> r == Split(Title(), ' ')[0] && r != NotListed
    { YearOf(Title()) }
    function Price(): (r: string)
      ensures Trimmed(r) && |r| <= |block.price|
    { Trim(block.price) }
    function Registration(): (r: string)
      ensures |r| <= |block.registration|
    { CutAll(Trim(block.registration), RegLabel) }
    function TotalTime(): (r: string)
      ensures |r| <= |block.totalTime|
    { CutAll(Trim(block.totalTime), TimeLabel) }
    function Address(): (r: string)
      ensures Trimmed(r) && |r| <= |block.address|
    { Trim(block.address) }
    function LastUpdated(): (r: string)
      ensures |r| <= |block.lastUpdate|
    { CutFirst(Trim(block.lastUpdate), UpdateLabel) }
    /** The detail sections, each trimmed, present exactly when the listing
        page was read (deep mode only). */
    function Sections(): (r: Option<Details>)
      ensures r.Some? <==> details.Some?
      ensures r.Some? ==> SectionsTrimmed(r.value)
    {
      match details
      case None => None
      case Some(d) => Some(TrimDetails(d))
    }
  }

  const SearchPath: string := "/search?"
  const NotListed: string := "Not Listed"
  const RegLabel: string := "Reg#"
  const TimeLabel: string := "TT:"
  const UpdateLabel: string := "Last Update:"

  // ---------------------------------------------------------------------
  // Label removal.

  /** Replacing the pattern `label\s*` once: the first occurrence of the label and the
      white space after it deleted. */
  function CutFirst(s: string, mark: string): (r: string)
    requires mark != []
    ensures |r| <= |s|
    ensures FirstOcc(s, mark, 0).None? ==> r == s
    ensures FirstOcc(s, mark, 0).Some? ==> var i := FirstOcc(s, mark, 0).value;
      i <= |r| && r[..i] == s[..i]
  {
    match FirstOcc(s, mark, 0)
    case None => s
    case Some(i) =>
      var r := s[..i] + TrimStart(s[i + |mark|..]);
      assert r[..i] == s[..i];
      r
  }

  /** Replacing the pattern `label\s*` globally: every occurrence, found left to right in
      the original text, deleted with the white space after it; the text a
      deletion brings together is not searched again. */
  function CutAll(s: string, mark: string): (r: string)
    requires mark != []
    ensures |r| <= |s|
    ensures FirstOcc(s, mark, 0).None? ==> r == s
    ensures FirstOcc(s, mark, 0).Some? ==> var i := FirstOcc(s, mark, 0).value;
      i <= |r| && r[..i] == s[..i]
    decreases |s|
  {
    match FirstOcc(s, mark, 0)
    case None => s
    case Some(i) => s[..i] + CutAll(TrimStart(s[i + |mark|..]), mark)
  }

  /** A label, white space, then a value with no label in it and no leading
      white space: both removals leave exactly the value. */
  lemma LabelStripped(mark: string, ws: string, v: string)
    requires mark != []
    requires Blank(ws)
    requires v == [] || !IsSpace(v[0])
    requires FirstOcc(v, mark, 0).None?
    ensures CutAll(mark + ws + v, mark) == v
    ensures CutFirst(mark + ws + v, mark) == v
  {
    var s := mark + ws + v;
    LeadingOcc(mark, ws + v);
    assert s == mark + (ws + v);
    TrimSpacesBefore(ws, v);
  }

  /** A text that starts with the label has its first occurrence at 0. */
  lemma LeadingOcc(mark: string, rest: string)
    requires mark != []
    ensures FirstOcc(mark + rest, mark, 0) == Some(0)
    ensures (mark + rest)[|mark|..] == rest
  {
    assert (mark + rest)[0..|mark|] == mark;
  }

  /** A label that is the first occurrence, with a value after it that
      holds no label and no leading white space: the global removal joins
      the text before the label to that value. */
  lemma CutAllJoins(a: string, mark: string, b: string)
    requires mark != []
    requires forall k: nat :: k < |a| ==> !Occurs(a + mark + b, mark, k)
    requires b == [] || !IsSpace(b[0])
    requires FirstOcc(b, mark, 0).None?
    ensures CutAll(a + mark + b, mark) == a + b
  {
    var s := a + mark + b;
    assert s[|a|..|a| + |mark|] == mark;
    assert Occurs(s, mark, |a|);
    assert FirstOcc(s, mark, 0) == Some(|a|);
    assert s[..|a|] == a && s[|a| + |mark|..] == b;
    TrimSpacesBefore([], b);
  }

  /** The global removal is not idempotent: when a label `a + b` is
      wrapped around another copy of itself (as "Reg#" in "ReReg#g#"),
      deleting the inner copy joins the halves into a label that a second
      removal deletes. */
  lemma CutAllNotIdempotent(a: string, b: string)
    requires a != [] && b != [] && !IsSpace(b[0])
    requires forall k: nat :: k < |a| ==> !Occurs(a + (a + b) + b, a + b, k)
    ensures CutAll(a + (a + b) + b, a + b) == a + b
    ensures CutAll(CutAll(a + (a + b) + b, a + b), a + b) == []
  {
    var mark := a + b;
    assert CutAll(a + mark + b, mark) == mark by {
      assert FirstOcc(b, mark, 0) == None;
      CutAllJoins(a, mark, b);
    }
    CutAllLabel(mark);
  }

  /** A label that occurs twice in a row: removing the first occurrence only
      (as for "Last Update:") keeps the second, the global removal (as for
      "Reg#" and "TT:") removes both. */
  lemma FirstVersusAll(mark: string, v: string)
    requires mark != [] && !IsSpace(mark[0])
    requires v == [] || !IsSpace(v[0])
    requires FirstOcc(v, mark, 0).None?
    ensures CutFirst(mark + mark + v, mark) == mark + v
    ensures CutAll(mark + mark + v, mark) == v
  {
    var rest := mark + v;
    LeadingOcc(mark, rest);
    assert mark + mark + v == mark + rest;
    TrimSpacesBefore([], rest);
    assert [] + rest == rest;
    LabelStripped(mark, [], v);
    assert mark + [] + v == rest;
  }

  /** A text that is just the label is removed whole. */
  lemma CutAllLabel(mark: string)
    requires mark != []
    ensures CutAll(mark, mark) == []
  {
    LabelStripped(mark, [], []);
    assert mark + [] + [] == mark;
  }

  // ---------------------------------------------------------------------
  // The title link's query.

  /** The field a query key fills, if any. */
  function FieldOf(key: string): Option<LinkField> {
    if key == "make" then Some(Make)
    else if key == "model" then Some(Model)
    else if key == "s-type" then Some(Type)
    else if key == "category_level1" then Some(Category)
    else None
  }

  /** A query piece is used only when splitting it on '=' gives two parts. */
  function KeyValue(piece: string): (r: Option<(string, string)>)
    ensures r.Some? ==> piece == r.value.0 + "=" + r.value.1
    ensures r.Some? <==> CountChar(piece, '=') == 1
  {
    var kv := Split(piece, '=');
    JoinSplit(piece, '=');
    if |kv| == 2 then
      assert Join(kv, '=') == kv[0] + "=" + kv[1];
      Some((kv[0], kv[1]))
    else None
  }

  /** The piece is well formed and its key fills field `f`. */
  predicate NamesField(piece: string, f: LinkField) {
    KeyValue(piece).Some? && FieldOf(KeyValue(piece).value.0) == Some(f)
  }

  /** One iteration of the `forEach` over the query pieces: the field the
      piece names gets its value with '+' turned to space, every other field
      is kept. */
  function ApplyPiece(m: map<LinkField, string>, piece: string): (r: map<LinkField, string>)
    ensures forall f :: NamesField(piece, f) ==> f in r && r[f] == MapChar(KeyValue(piece).value.1, '+', ' ')
    ensures forall f :: !NamesField(piece, f) ==> (f in r <==> f in m) && (f in m ==> r[f] == m[f])
  {
    match KeyValue(piece)
    case None => m
    case Some((key, value)) =>
      match FieldOf(key)
      case None => m
      case Some(f) => m[f := MapChar(value, '+', ' ')]
  }

  /** The `forEach`, first piece first. */
  function ApplyPieces(m: map<LinkField, string>, pieces: seq<string>): (r: map<LinkField, string>)
    ensures m.Keys <= r.Keys
    decreases |pieces|
  {
    if pieces == [] then m else ApplyPieces(ApplyPiece(m, pieces[0]), pieces[1..])
  }

  /** The value of the last well-formed piece that fills field `f`. */
  function LastValue(pieces: seq<string>, f: LinkField): (r: Option<string>)
    ensures r.Some? ==> exists k :: (0 <= k < |pieces| && KeyValue(pieces[k]).Some?
      && FieldOf(KeyValue(pieces[k]).value.0) == Some(f) && KeyValue(pieces[k]).value.1 == r.value)
  {
    if pieces == [] then None
    else
      var last := pieces[|pieces| - 1];
      match KeyValue(last)
      case Some((key, value)) =>
        if FieldOf(key) == Some(f) then Some(value)
        else LastValue(pieces[..|pieces| - 1], f)
      case None => LastValue(pieces[..|pieces| - 1], f)
  }

  /** Piece `k` is the last that names `f`. */
  predicate LastNaming(pieces: seq<string>, k: nat, f: LinkField) {
    k < |pieces| && NamesField(pieces[k], f)
    && forall j :: k < j < |pieces| ==> !NamesField(pieces[j], f)
  }

  lemma LastNamingSnoc(init: seq<string>, last: string, k: nat, f: LinkField)
    requires LastNaming(init, k, f) && !NamesField(last, f)
    ensures LastNaming(init + [last], k, f)
  {
    var pieces := init + [last];
    forall j | k < j < |pieces|
      ensures !NamesField(pieces[j], f)
    {
      if j < |init| {
        assert pieces[j] == init[j];
      } else {
        assert pieces[j] == last;
      }
    }
  }

  /** The value found is that of the last piece naming `f`, and none is
      found exactly when no piece names `f`. */
  lemma {:induction false} LastValueSpec(pieces: seq<string>, f: LinkField)
    ensures LastValue(pieces, f).None? <==> forall k :: 0 <= k < |pieces| ==> !NamesField(pieces[k], f)
    ensures LastValue(pieces, f).Some? ==>
      exists k: nat :: LastNaming(pieces, k, f) && KeyValue(pieces[k]).value.1 == LastValue(pieces, f).value
    decreases |pieces|
  {
    if pieces != [] {
      var n := |pieces| - 1;
      var init, last := pieces[..n], pieces[n];
      assert init + [last] == pieces;
      LastValueSpec(init, f);
      if NamesField(last, f) {
        assert LastValue(pieces, f) == Some(KeyValue(last).value.1);
        assert LastNaming(pieces, n, f);
      } else {
        assert LastValue(pieces, f) == LastValue(init, f);
        assert forall k :: 0 <= k < n ==> init[k] == pieces[k];
        if LastValue(init, f).Some? {
          var k: nat :| LastNaming(init, k, f) && KeyValue(init[k]).value.1 == LastValue(init, f).value;
          LastNamingSnoc(init, last, k, f);
          assert LastNaming(pieces, k, f);
        }
      }
    }
  }

  lemma {:induction false} ApplyPiecesSnoc(m: map<LinkField, string>, pieces: seq<string>, p: string)
    ensures ApplyPieces(m, pieces + [p]) == ApplyPiece(ApplyPieces(m, pieces), p)
    decreases |pieces|
  {
    if pieces != [] {
      assert (pieces + [p])[1..] == pieces[1..] + [p];
      ApplyPiecesSnoc(ApplyPiece(m, pieces[0]), pieces[1..], p);
    }
  }

  /** The later piece wins: each field holds the '+'-to-space form of the
      last piece that names it, and keeps its old value when none does. */
  lemma {:induction false} ApplyPiecesLast(m: map<LinkField, string>, pieces: seq<string>, f: LinkField)
    ensures var r := ApplyPieces(m, pieces);
      match LastValue(pieces, f)
      case Some(v) => f in r && r[f] == MapChar(v, '+', ' ')
      case None => (f in r <==> f in m) && (f in m ==> r[f] == m[f])
    decreases |pieces|
  {
    if pieces != [] {
      var init, last := pieces[..|pieces| - 1], pieces[|pieces| - 1];
      assert init + [last] == pieces;
      ApplyPiecesSnoc(m, init, last);
      ApplyPiecesLast(m, init, f);
    }
  }

  /** The pieces of a title `href`: its first "/search?" removed, the rest
      split on '&'. */
  function LinkPieces(href: string): seq<string> {
    Split(CutText(href, SearchPath), '&')
  }

  /** The link fields of a title `href`, each piece applied in turn: a field
      is present exactly when some piece names it, and then holds the
      '+'-to-space form of the last such piece's value. */
  function LinkFields(href: string): (r: map<LinkField, string>)
    ensures forall f :: f in r <==> LastValue(LinkPieces(href), f).Some?
    ensures forall f :: f in r ==> r[f] == MapChar(LastValue(LinkPieces(href), f).value, '+', ' ')
  {
    ApplyPiecesFields(LinkPieces(href));
    ApplyPieces(map[], LinkPieces(href))
  }

  /** `ApplyPiecesLast` for every field, from the empty map. */
  lemma ApplyPiecesFields(pieces: seq<string>)
    ensures forall f :: f in ApplyPieces(map[], pieces) <==> LastValue(pieces, f).Some?
    ensures forall f :: f in ApplyPieces(map[], pieces) ==>
      ApplyPieces(map[], pieces)[f] == MapChar(LastValue(pieces, f).value, '+', ' ')
  {
    forall f: LinkField {
      ApplyPiecesLast(map[], pieces, f);
    }
  }

  /** `replace(text, '')` with a string pattern: its first occurrence
      deleted (literally, no white space after it). */
  function CutText(s: string, p: string): (r: string)
    requires p != []
    ensures FirstOcc(s, p, 0).None? ==> r == s
    ensures StartsWith(s, p) ==> r == s[|p|..]
  {
    match FirstOcc(s, p, 0)
    case None => s
    case Some(i) =>
      assert StartsWith(s, p) ==> Occurs(s, p, 0);
      s[..i] + s[i + |p|..]
  }

  /** The value of the last parameter whose name fills field `f`. */
  function LastParam(ps: seq<Param>, f: LinkField): Option<string> {
    if ps == [] then None
    else if FieldOf(ps[|ps| - 1].name) == Some(f) then Some(ps[|ps| - 1].value)
    else LastParam(ps[..|ps| - 1], f)
  }

  lemma {:induction false} LastValuePairs(ps: seq<Param>, f: LinkField)
    requires forall k :: 0 <= k < |ps| ==> Plain(ps[k])
    ensures LastValue([""] + Pairs(ps), f) == LastParam(ps, f)
    decreases |ps|
  {
    var pieces := [""] + Pairs(ps);
    if ps == [] {
      assert Split("", '=') == [""];
      assert KeyValue("").None?;
      assert pieces[..0] == [];
    } else {
      var p := ps[|ps| - 1];
      var init := ps[..|ps| - 1];
      assert pieces[|pieces| - 1] == p.name + "=" + p.value;
      PairSplit(p);
      assert KeyValue(p.name + "=" + p.value) == Some((p.name, p.value));
      assert pieces[..|pieces| - 1] == [""] + Pairs(init);
      LastValuePairs(init, f);
    }
  }

  /** A title link written the way search URLs are written reads back, for
      each field, the '+'-to-space form of the last parameter that names
      it, and nothing for a field no parameter names. */
  lemma LinkFieldsOfQuery(ps: seq<Param>, f: LinkField)
    requires ps != []
    requires forall k :: 0 <= k < |ps| ==> Plain(ps[k])
    ensures var r := LinkFields(SearchPath + Render(ps));
      match LastParam(ps, f)
      case Some(v) => f in r && r[f] == MapChar(v, '+', ' ')
      case None => f !in r
  {
    assert StartsWith(SearchPath + Render(ps), SearchPath);
    assert CutText(SearchPath + Render(ps), SearchPath) == Render(ps);
    QuerySplit(ps);
    LastValuePairs(ps, f);
    ApplyPiecesLast(map[], [""] + Pairs(ps), f);
  }

  // ---------------------------------------------------------------------
  // The record.

  /** The year field: the title's first space-separated word when
      `parseInt` reads a number from it, otherwise "Not Listed". */
  function YearOf(title: string): (r: string)
    ensures r == NotListed || (r == Split(title, ' ')[0] && !ParseIntIsNaN(r))
    ensures !ParseIntIsNaN(Split(title, ' ')[0]) ==> r == Split(title, ' ')[0]
    ensures r != NotListed ==> ' ' !in r && StartsWith(title, r)
  {
    var word := Split(title, ' ')[0];
    FirstWordPrefix(title);
    if ParseIntIsNaN(word) then NotListed else word
  }

  /** The first space-separated word is a prefix of the text. */
  lemma {:induction false} FirstWordPrefix(s: string)
    ensures StartsWith(s, Split(s, ' ')[0])
  {
    if s != [] {
      FirstWordPrefix(s[1..]);
    }
  }

  /** A title that starts with a year and a space lists that year. */
  lemma YearOfTitle(y: nat, rest: string)
    ensures YearOf(NatToString(y) + " " + rest) == NatToString(y)
  {
    var d := NatToString(y);
    SplitAt(d, ' ', rest);
    assert d + " " + rest == d + [' '] + rest;
    assert !IsSpace(d[0]) && DropSign(TrimStart(d)) == d;
  }

  /** A title whose first character starts no number lists no year. */
  lemma YearNotListed(title: string)
    requires title != [] && !IsDigit(title[0]) && !IsSpace(title[0])
    requires title[0] != '-' && title[0] != '+'
    ensures YearOf(title) == NotListed
  {
    var word := Split(title, ' ')[0];
    FirstWordPrefix(title);
    assert word != [] && word[0] == title[0];
  }

  /** A labelled area as the page shows it: white space, the label, white
      space, the value and white space. Once trimmed and cleaned it reads as
      the bare value, by either removal. */
  lemma LabelledArea(mark: string, w0: string, ws: string, v: string, w1: string)
    requires mark != [] && !IsSpace(mark[0])
    requires Blank(w0) && Blank(ws) && Blank(w1)
    requires v != [] && !IsSpace(v[0]) && !IsSpace(v[|v| - 1])
    requires FirstOcc(v, mark, 0).None?
    ensures CutAll(Trim(w0 + mark + ws + v + w1), mark) == v
    ensures CutFirst(Trim(w0 + mark + ws + v + w1), mark) == v
  {
    var x := mark + ws + v;
    assert x[0] == mark[0] && x[|x| - 1] == v[|v| - 1];
    assert w0 + mark + ws + v + w1 == w0 + x + w1;
    TrimPadded(w0, x, w1);
    LabelStripped(mark, ws, v);
  }

  /** The registration, total time and last-update fields of a record whose
      areas read "Reg# ...", "TT: ..." and "Last Update: ...", with white
      space around them, are the values after the labels. */
  lemma RecordLabels(b: RawBlock, now: int, w0: string, ws: string, w1: string, reg: string, tt: string, upd: string)
    requires Blank(w0) && Blank(ws) && Blank(w1)
    requires reg != [] && !IsSpace(reg[0]) && !IsSpace(reg[|reg| - 1]) && FirstOcc(reg, RegLabel, 0).None?
    requires tt != [] && !IsSpace(tt[0]) && !IsSpace(tt[|tt| - 1]) && FirstOcc(tt, TimeLabel, 0).None?
    requires upd != [] && !IsSpace(upd[0]) && !IsSpace(upd[|upd| - 1]) && FirstOcc(upd, UpdateLabel, 0).None?
    requires b.registration == w0 + RegLabel + ws + reg + w1
    requires b.totalTime == w0 + TimeLabel + ws + tt + w1
    requires b.lastUpdate == w0 + UpdateLabel + ws + upd + w1
    ensures var r := Record(b, now, None);
      r.Registration() == reg && r.TotalTime() == tt && r.LastUpdated() == upd
  {
    RegistrationOf(b, now, w0, ws, reg, w1);
    TotalTimeOf(b, now, w0, ws, tt, w1);
    LastUpdatedOf(b, now, w0, ws, upd, w1);
  }

  lemma RegistrationOf(b: RawBlock, now: int, w0: string, ws: string, reg: string, w1: string)
    requires Blank(w0) && Blank(ws) && Blank(w1)
    requires reg != [] && !IsSpace(reg[0]) && !IsSpace(reg[|reg| - 1]) && FirstOcc(reg, RegLabel, 0).None?
    requires b.registration == w0 + RegLabel + ws + reg + w1
    ensures Record(b, now, None).Registration() == reg
  {
    LabelledArea(RegLabel, w0, ws, reg, w1);
  }

  lemma TotalTimeOf(b: RawBlock, now: int, w0: string, ws: string, tt: string, w1: string)
    requires Blank(w0) && Blank(ws) && Blank(w1)
    requires tt != [] && !IsSpace(tt[0]) && !IsSpace(tt[|tt| - 1]) && FirstOcc(tt, TimeLabel, 0).None?
    requires b.totalTime == w0 + TimeLabel + ws + tt + w1
    ensures Record(b, now, None).TotalTime() == tt
  {
    LabelledArea(TimeLabel, w0, ws, tt, w1);
  }

  lemma LastUpdatedOf(b: RawBlock, now: int, w0: string, ws: string, upd: string, w1: string)
    requires Blank(w0) && Blank(ws) && Blank(w1)
    requires upd != [] && !IsSpace(upd[0]) && !IsSpace(upd[|upd| - 1]) && FirstOcc(upd, UpdateLabel, 0).None?
    requires b.lastUpdate == w0 + UpdateLabel + ws + upd + w1
    ensures Record(b, now, None).LastUpdated() == upd
  {
    LabelledArea(UpdateLabel, w0, ws, upd, w1);
  }

  /** A record's model group is the text of its area without the white
      space around it, whatever that white space is. */
  lemma ModelGroupOf(b: RawBlock, now: int, w0: string, group: string, w1: string)
    requires Blank(w0) && Blank(w1) && Trimmed(group)
    requires b.modelGroup == w0 + group + w1
    ensures Record(b, now, None).ModelGroup() == group
  {
    TrimPadded(w0, group, w1);
  }

  /** A record's title is the text of its area without the white space
      around it. */
  lemma TitleOf(b: RawBlock, now: int, w0: string, title: string, w1: string)
    requires Blank(w0) && Blank(w1) && Trimmed(title)
    requires b.title == w0 + title + w1
    ensures Record(b, now, None).Title() == title
  {
    TrimPadded(w0, title, w1);
  }

  /** A record's price is the text of its area without the white space
      around it. */
  lemma PriceOf(b: RawBlock, now: int, w0: string, price: string, w1: string)
    requires Blank(w0) && Blank(w1) && Trimmed(price)
    requires b.price == w0 + price + w1
    ensures Record(b, now, None).Price() == price
  {
    TrimPadded(w0, price, w1);
  }

  /** A record's address is the text of its area without the white space
      around it. */
  lemma AddressOf(b: RawBlock, now: int, w0: string, address: string, w1: string)
    requires Blank(w0) && Blank(w1) && Trimmed(address)
    requires b.address == w0 + address + w1
    ensures Record(b, now, None).Address() == address
  {
    TrimPadded(w0, address, w1);
  }


  /** Every section is trimmed. */
  predicate SectionsTrimmed(d: Details) {
    && Trimmed(d.specs) && Trimmed(d.description) && Trimmed(d.avionics) && Trimmed(d.airframe)
    && Trimmed(d.engine) && Trimmed(d.intExt) && Trimmed(d.remarks)
  }

  /** The detail sections of a listing page, each trimmed. */
  function TrimDetails(d: Details): Details {
    Details(Trim(d.specs), Trim(d.description), Trim(d.avionics), Trim(d.airframe),
            Trim(d.engine), Trim(d.intExt), Trim(d.remarks))
  }
}
