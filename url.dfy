/** Query-URL construction for the three actions of the scraper
    (`parseRange` and `buildURL`, tap.js lines 34-114). */
module Url {
  import opened Wrappers
  import opened Text
  import opened JsNumbers

  const SearchUrl: string := "https://www.trade-a-plane.com/search?"
  const MaxPageSize: nat := 96

  /** The request options. A field the user left unset holds "" (unset and
      empty are both falsy where the scraper tests them). `distance` is the
      text of the distance value (one million by default),
      `level` the category level ("1" or "2"), `id` a listing id. */
  datatype Options = Options(
    typ: string, fractional: string, distance: string,
    make: string, model: string, modelGroup: string,
    year: string, price: string, totalTime: string,
    sort: string, sortOrder: string,
    level: string, id: string)

  /** The two bounds of a `"min-max"` text; both absent when it is malformed. */
  datatype Range = Range(min: Option<string>, max: Option<string>)

  /** A bound is used only when it is present and non-empty (JavaScript truthiness). */
  predicate Truthy(b: Option<string>) { b.Some? && b.value != "" }

  /** `parseRange`: split on '-', accepted only when that yields exactly two parts. */
  function ParseRange(range: string): (r: Range)
    ensures r.min.Some? <==> CountChar(range, '-') == 1
    ensures r.max.Some? <==> r.min.Some?
    ensures r.min.Some? ==> range == r.min.value + "-" + r.max.value
    ensures r.min.Some? ==> '-' !in r.min.value && '-' !in r.max.value
  {
    var parts := Split(range, '-');
    JoinSplit(range, '-');
    if |parts| == 2 then
      assert Join(parts, '-') == parts[0] + "-" + parts[1];
      Range(Some(parts[0]), Some(parts[1]))
    else Range(None, None)
  }

  /** `encodeURIComponent` restricted to the fraction choices ("1/2", "1/16", ...):
      only '/' needs escaping there. */
  function EncodeFraction(f: string): (r: string)
    ensures '/' !in f ==> r == f
    ensures '/' !in r
    ensures |f| == 1 ==> r == (if f[0] == '/' then "%2F" else f)
  {
    if f == [] then []
    else (if f[0] == '/' then "%2F" else [f[0]]) + EncodeFraction(f[1..])
  }

  /** Encoding works piece by piece: with the one-character case above,
      every '/' becomes "%2F" and every other character is kept, in order. */
  lemma {:induction false} EncodeFractionAppend(a: string, b: string)
    ensures EncodeFraction(a + b) == EncodeFraction(a) + EncodeFraction(b)
  {
    if a == [] {
      assert a + b == b;
    } else {
      assert (a + b)[0] == a[0] && (a + b)[1..] == a[1..] + b;
      EncodeFractionAppend(a[1..], b);
      var h := if a[0] == '/' then "%2F" else [a[0]];
      assert EncodeFraction(a + b) == h + EncodeFraction(a[1..] + b);
      AppendAssoc(h, EncodeFraction(a[1..]), EncodeFraction(b));
    }
  }

  /** A fraction "p/q" is sent as "p%2Fq". */
  lemma EncodeFractionOf(p: string, q: string)
    requires '/' !in p && '/' !in q
    ensures EncodeFraction(p + "/" + q) == p + "%2F" + q
  {
    EncodeFractionAppend(p + "/", q);
    EncodeFractionAppend(p, "/");
  }

  /** The `fractional_ownership` value: none for "Any", the whole-aircraft
      fraction "1/1" for "None", otherwise the encoded choice. */
  function FractionalValue(fractional: string): (r: Option<string>)
    ensures r.None? <==> fractional == "Any"
    ensures fractional == "None" ==> r == Some("1%2F1")
    ensures r.Some? ==> '/' !in r.value
    ensures fractional != "Any" && fractional != "None" ==> r == Some(EncodeFraction(fractional))
  {
    if fractional == "Any" then None
    else if fractional == "None" then Some("1%2F1")
    else Some(EncodeFraction(fractional))
  }

  /** One query parameter; it is written `&name=value`. */
  datatype Param = Param(name: string, value: string)

  /** The query text: `&name=value` for each parameter, in order. */
  function Render(ps: seq<Param>): string {
    if ps == [] then "" else "&" + ps[0].name + "=" + ps[0].value + Render(ps[1..])
  }

  function FractionalParams(fractional: string): seq<Param> {
    match FractionalValue(fractional)
    case None => []
    case Some(v) => [Param("fractional_ownership", v)]
  }

  /** The `-min`/`-max` pair for one range option; nothing unless the option
      is set and both of its parsed bounds are non-empty. */
  function RangeParams(range: string, name: string): seq<Param> {
    if range == "" then []
    else
      var r := ParseRange(range);
      if Truthy(r.min) && Truthy(r.max) then [Param(name + "-min", r.min.value), Param(name + "-max", r.max.value)]
      else []
  }

  /** The parameters every search carries. */
  function FixedParams(): seq<Param> {
    [Param("s-advanced", "yes"), Param("s-type", "aircraft"), Param("sale_status", "For+Sale"),
     Param("s-page_size", NatToString(MaxPageSize))]
  }

  /** The distance and the category type. */
  function PlaceParams(o: Options): seq<Param> {
    [Param("user_distance", o.distance), Param("category_level1", MapChar(o.typ, ' ', '+'))]
  }

  /** Model group, model and make, each only when set. */
  function AircraftParams(o: Options): seq<Param> {
    (if o.modelGroup != "" then [Param("model_group", MapChar(ToUpper(o.modelGroup), ' ', '+'))] else [])
    + (if o.model != "" then [Param("model", ToUpper(o.model))] else [])
    + (if o.make != "" then [Param("make", ToUpper(o.make))] else [])
  }

  /** The sort key and order, only when a sort key is set. */
  function SortParams(o: Options): seq<Param> {
    if o.sort != "" then [Param("s-sort_key", o.sort), Param("s-sort_order", o.sortOrder)] else []
  }

  /** The search parameters, group by group in the scraper's order of `url +=`
      statements. */
  function SearchParams(o: Options): seq<Param> {
    FixedParams() + FractionalParams(o.fractional) + PlaceParams(o) + AircraftParams(o)
    + RangeParams(o.year, "year") + RangeParams(o.totalTime, "total_time") + RangeParams(o.price, "price")
    + SortParams(o)
  }

  /** The category parameters; `s-type` carries the stray ';' the scraper writes. */
  function CategoryParams(o: Options): seq<Param> {
    [Param("s-type", "aircraft;"), Param("category_level1", MapChar(o.typ, ' ', '+')), Param("s-lvl", o.level)]
  }

  /** `buildURL`: the search prefix and the action's parameters; an unknown
      action is an error and yields no URL. */
  function BuildURL(o: Options, action: string): (r: Result<string, string>)
    ensures r.Ok? <==> action in ["search", "category", "listing"]
    ensures r.Ok? ==> StartsWith(r.value, SearchUrl + "&")
    ensures action == "listing" ==> r == Ok(ListingURL(o.id))
    ensures r.Err? ==> r.error == "can not build URL, invalid action " + action
  {
    if action == "search" then
      var ps := SearchParams(o);
      assert ps[0] == Param("s-advanced", "yes");
      QueryPrefix(ps);
      Ok(SearchUrl + Render(ps))
    else if action == "category" then
      QueryPrefix(CategoryParams(o));
      Ok(SearchUrl + Render(CategoryParams(o)))
    else if action == "listing" then
      QueryPrefix([Param("listing_id", o.id)]);
      Ok(ListingURL(o.id))
    else Err("can not build URL, invalid action " + action)
  }

  /** The URL of one listing's own page: the search prefix and the single
      parameter `listing_id`. */
  function ListingURL(id: string): string {
    SearchUrl + Render([Param("listing_id", id)])
  }

  /** The listing URL is the search prefix, `&listing_id=` and the id, and
      different ids give different URLs. */
  lemma ListingURLForm(id: string, id': string)
    ensures ListingURL(id) == SearchUrl + "&listing_id=" + id
    ensures ListingURL(id) == ListingURL(id') ==> id == id'
  {
    RenderOne("listing_id", id);
    RenderOne("listing_id", id');
    var pre := SearchUrl + "&listing_id=";
    assert ListingURL(id) == pre + id;
    assert ListingURL(id') == pre + id';
    if ListingURL(id) == ListingURL(id') {
      assert id == ListingURL(id)[|pre|..];
    }
  }

  /** The category URL, the stray ';' after `aircraft` included. */
  lemma CategoryURLForm(o: Options)
    ensures BuildURL(o, "category") == Ok(SearchUrl + "&s-type=aircraft;"
      + "&category_level1=" + MapChar(o.typ, ' ', '+') + "&s-lvl=" + o.level)
  {
    var typ := MapChar(o.typ, ' ', '+');
    var ps := CategoryParams(o);
    assert ps == [Param("s-type", "aircraft;"), Param("category_level1", typ), Param("s-lvl", o.level)];
    RenderThree("s-type", "aircraft;", "category_level1", typ, "s-lvl", o.level);
    assert "&" + "s-type" + "=" + "aircraft;" == "&s-type=aircraft;";
    assert "&" + "category_level1" + "=" == "&category_level1=";
    assert "&" + "s-lvl" + "=" == "&s-lvl=";
    assert Render(ps) == "&s-type=aircraft;" + "&category_level1=" + typ + "&s-lvl=" + o.level;
    assert "category" != "search";
    assert BuildURL(o, "category") == Ok(SearchUrl + Render(ps));
    var x, y, z := "&s-type=aircraft;", "&category_level1=", "&s-lvl=";
    AppendAssoc(SearchUrl, x, y);
    AppendAssoc(SearchUrl, x + y, typ);
    AppendAssoc(SearchUrl, x + y + typ, z);
    AppendAssoc(SearchUrl, x + y + typ + z, o.level);
  }

  lemma RenderThree(n1: string, v1: string, n2: string, v2: string, n3: string, v3: string)
    ensures Render([Param(n1, v1), Param(n2, v2), Param(n3, v3)])
      == ("&" + n1 + "=" + v1) + ("&" + n2 + "=") + v2 + ("&" + n3 + "=") + v3
  {
    var ps := [Param(n1, v1), Param(n2, v2), Param(n3, v3)];
    assert ps[1..] == [Param(n2, v2), Param(n3, v3)];
    assert ps[1..][1..] == [Param(n3, v3)];
    RenderOne(n3, v3);
  }

  lemma QueryPrefix(ps: seq<Param>)
    requires ps != []
    ensures StartsWith(SearchUrl + Render(ps), SearchUrl + "&")
  {
    assert (SearchUrl + Render(ps))[..|SearchUrl| + 1] == SearchUrl + "&";
  }

  lemma RenderOne(name: string, value: string)
    ensures Render([Param(name, value)]) == "&" + name + "=" + value
  {
    assert [Param(name, value)][1..] == [];
  }

  /** A range pair is emitted exactly when the option reads `lo-hi` with a
      single '-' and both bounds non-empty, and then carries those bounds. */
  lemma {:induction false} RangeParamsSpec(range: string, name: string, lo: string, hi: string)
    requires range == lo + "-" + hi && '-' !in lo && '-' !in hi
    ensures RangeParams(range, name) == if lo != "" && hi != "" then [Param(name + "-min", lo), Param(name + "-max", hi)] else []
  {
    SplitAt(lo, '-', hi);
    SplitPlain(hi, '-');
    assert lo + "-" + hi == lo + ['-'] + hi;
  }

  lemma RangeParamsMalformed(range: string, name: string)
    requires CountChar(range, '-') != 1
    ensures RangeParams(range, name) == []
  {
  }

  /** The names of a parameter list, in order. */
  function Names(ps: seq<Param>): (r: seq<string>)
    ensures |r| == |ps|
  {
    seq(|ps|, k requires 0 <= k < |ps| => ps[k].name)
  }

  lemma NamesAppend(xs: seq<Param>, ys: seq<Param>)
    ensures Names(xs + ys) == Names(xs) + Names(ys)
  {
  }

  /** A range option yields its pair of parameters. */
  predicate RangeGiven(range: string) {
    range != "" && Truthy(ParseRange(range).min) && Truthy(ParseRange(range).max)
  }

  /** The search query names its parameters in a fixed order: the four
      fixed ones, the fractional ownership unless it is "Any", distance and
      category, then model group, model and make when set, the year, total
      time and price pairs when both bounds are given, and the sort pair
      when a sort key is given. */
  lemma SearchNames(o: Options)
    ensures Names(SearchParams(o)) ==
      ["s-advanced", "s-type", "sale_status", "s-page_size"]
      + (if o.fractional == "Any" then [] else ["fractional_ownership"])
      + ["user_distance", "category_level1"]
      + ((if o.modelGroup != "" then ["model_group"] else [])
         + (if o.model != "" then ["model"] else [])
         + (if o.make != "" then ["make"] else []))
      + (if RangeGiven(o.year) then ["year-min", "year-max"] else [])
      + (if RangeGiven(o.totalTime) then ["total_time-min", "total_time-max"] else [])
      + (if RangeGiven(o.price) then ["price-min", "price-max"] else [])
      + (if o.sort != "" then ["s-sort_key", "s-sort_order"] else [])
  {
    GroupNames(o);
    AircraftNames(o);
    RangesNames(o);
    NamesConcat(FixedParams(), FractionalParams(o.fractional), PlaceParams(o), AircraftParams(o),
      RangeParams(o.year, "year"), RangeParams(o.totalTime, "total_time"), RangeParams(o.price, "price"), SortParams(o));
  }

  lemma GroupNames(o: Options)
    ensures Names(FixedParams()) == ["s-advanced", "s-type", "sale_status", "s-page_size"]
    ensures Names(FractionalParams(o.fractional)) == if o.fractional == "Any" then [] else ["fractional_ownership"]
    ensures Names(PlaceParams(o)) == ["user_distance", "category_level1"]
    ensures Names(SortParams(o)) == if o.sort != "" then ["s-sort_key", "s-sort_order"] else []
  {
  }

  lemma NamesConcat(a: seq<Param>, b: seq<Param>, c: seq<Param>, d: seq<Param>,
                    e: seq<Param>, f: seq<Param>, g: seq<Param>, h: seq<Param>)
    ensures Names(a + b + c + d + e + f + g + h)
         == Names(a) + Names(b) + Names(c) + Names(d) + Names(e) + Names(f) + Names(g) + Names(h)
  {
    NamesAppend(a, b);
    NamesAppend(a + b, c);
    NamesAppend(a + b + c, d);
    NamesAppend(a + b + c + d, e);
    NamesAppend(a + b + c + d + e, f);
    NamesAppend(a + b + c + d + e + f, g);
    NamesAppend(a + b + c + d + e + f + g, h);
  }

  lemma AircraftNames(o: Options)
    ensures Names(AircraftParams(o)) ==
      (if o.modelGroup != "" then ["model_group"] else [])
      + (if o.model != "" then ["model"] else [])
      + (if o.make != "" then ["make"] else [])
  {
    var mg := if o.modelGroup != "" then [Param("model_group", MapChar(ToUpper(o.modelGroup), ' ', '+'))] else [];
    var md := if o.model != "" then [Param("model", ToUpper(o.model))] else [];
    var mk := if o.make != "" then [Param("make", ToUpper(o.make))] else [];
    NamesAppend(mg, md);
    NamesAppend(mg + md, mk);
  }

  lemma RangesNames(o: Options)
    ensures Names(RangeParams(o.year, "year")) == if RangeGiven(o.year) then ["year-min", "year-max"] else []
    ensures Names(RangeParams(o.totalTime, "total_time"))
         == if RangeGiven(o.totalTime) then ["total_time-min", "total_time-max"] else []
    ensures Names(RangeParams(o.price, "price")) == if RangeGiven(o.price) then ["price-min", "price-max"] else []
  {
    RangeNames(o.year, "year");
    assert "year" + "-min" == "year-min" && "year" + "-max" == "year-max";
    RangeNames(o.totalTime, "total_time");
    assert "total_time" + "-min" == "total_time-min" && "total_time" + "-max" == "total_time-max";
    RangeNames(o.price, "price");
    assert "price" + "-min" == "price-min" && "price" + "-max" == "price-max";
  }

  lemma RangeNames(range: string, name: string)
    ensures Names(RangeParams(range, name)) == if RangeGiven(range) then [name + "-min", name + "-max"] else []
  {
  }

  /** The value the query gives a name: that of its first parameter with the
      name, if any. */
  function ParamValue(ps: seq<Param>, name: string): Option<string> {
    if ps == [] then None
    else if ps[0].name == name then Some(ps[0].value)
    else ParamValue(ps[1..], name)
  }

  lemma {:induction false} ParamValueAbsent(ps: seq<Param>, name: string)
    requires name !in Names(ps)
    ensures ParamValue(ps, name) == None
  {
    if ps != [] {
      assert Names(ps)[0] == ps[0].name;
      assert Names(ps[1..]) == Names(ps)[1..];
      ParamValueAbsent(ps[1..], name);
    }
  }

  lemma {:induction false} ParamValueAppend(xs: seq<Param>, ys: seq<Param>, name: string)
    ensures ParamValue(xs + ys, name) == if ParamValue(xs, name).Some? then ParamValue(xs, name) else ParamValue(ys, name)
  {
    if xs != [] {
      assert (xs + ys)[1..] == xs[1..] + ys;
      ParamValueAppend(xs[1..], ys, name);
    } else {
      assert xs + ys == ys;
    }
  }

  /** A name only the second of six groups holds takes its value from it. */
  lemma ParamValueMiddle(a: seq<Param>, b: seq<Param>, y: seq<Param>, t: seq<Param>,
                         p: seq<Param>, s: seq<Param>, name: string)
    requires name !in Names(a) && name !in Names(y) && name !in Names(t)
    requires name !in Names(p) && name !in Names(s)
    ensures ParamValue(a + b + y + t + p + s, name) == ParamValue(b, name)
  {
    ParamValueAbsent(a, name);
    ParamValueAbsent(y, name);
    ParamValueAbsent(t, name);
    ParamValueAbsent(p, name);
    ParamValueAbsent(s, name);
    ParamValueAppend(a, b, name);
    ParamValueAppend(a + b, y, name);
    ParamValueAppend(a + b + y, t, name);
    ParamValueAppend(a + b + y + t, p, name);
    ParamValueAppend(a + b + y + t + p, s, name);
  }

  /** A name is absent from a list whose names all start with another letter. */
  lemma NotNamed(ns: seq<string>, name: string)
    requires name != []
    requires forall k :: 0 <= k < |ns| ==> ns[k] != [] && ns[k][0] != name[0]
    ensures name !in ns
  {
  }

  /** No group of a search before the aircraft one names a parameter
      starting with 'm'. */
  lemma NoEarlierM(o: Options, name: string)
    requires name != [] && name[0] == 'm'
    ensures name !in Names(FixedParams() + FractionalParams(o.fractional) + PlaceParams(o))
  {
    GroupNames(o);
    NamesAppend(FixedParams(), FractionalParams(o.fractional));
    NamesAppend(FixedParams() + FractionalParams(o.fractional), PlaceParams(o));
    NotNamed(Names(FixedParams() + FractionalParams(o.fractional) + PlaceParams(o)), name);
  }

  /** No group of a search after the aircraft one names a parameter
      starting with 'm'. */
  lemma NoLaterM(o: Options, name: string)
    requires name != [] && name[0] == 'm'
    ensures name !in Names(RangeParams(o.year, "year"))
    ensures name !in Names(RangeParams(o.totalTime, "total_time"))
    ensures name !in Names(RangeParams(o.price, "price"))
    ensures name !in Names(SortParams(o))
  {
    GroupNames(o);
    RangesNames(o);
    NotNamed(Names(RangeParams(o.year, "year")), name);
    NotNamed(Names(RangeParams(o.totalTime, "total_time")), name);
    NotNamed(Names(RangeParams(o.price, "price")), name);
    NotNamed(Names(SortParams(o)), name);
  }

  /** In a search, model group, model and make each have the value of the
      aircraft group: the first parameter of that name comes from it. */
  lemma AircraftValue(o: Options, name: string)
    requires name == "model_group" || name == "model" || name == "make"
    ensures ParamValue(SearchParams(o), name) == ParamValue(AircraftParams(o), name)
  {
    var a := FixedParams() + FractionalParams(o.fractional) + PlaceParams(o);
    var y := RangeParams(o.year, "year");
    var t := RangeParams(o.totalTime, "total_time");
    var p := RangeParams(o.price, "price");
    var s := SortParams(o);
    assert SearchParams(o) == a + AircraftParams(o) + y + t + p + s;
    assert name != [] && name[0] == 'm';
    NoEarlierM(o, name);
    NoLaterM(o, name);
    ParamValueMiddle(a, AircraftParams(o), y, t, p, s, name);
  }

  /** The aircraft values a search sends: the model group upper-cased with
      each space turned to '+', but the model and the make only upper-cased,
      their spaces kept. Each is absent when its option is empty. */
  lemma AircraftValues(o: Options)
    ensures ParamValue(SearchParams(o), "model_group")
         == if o.modelGroup != "" then Some(MapChar(ToUpper(o.modelGroup), ' ', '+')) else None
    ensures ParamValue(SearchParams(o), "model") == if o.model != "" then Some(ToUpper(o.model)) else None
    ensures ParamValue(SearchParams(o), "make") == if o.make != "" then Some(ToUpper(o.make)) else None
  {
    var mg := if o.modelGroup != "" then [Param("model_group", MapChar(ToUpper(o.modelGroup), ' ', '+'))] else [];
    var md := if o.model != "" then [Param("model", ToUpper(o.model))] else [];
    var mk := if o.make != "" then [Param("make", ToUpper(o.make))] else [];
    assert AircraftParams(o) == mg + md + mk;
    AircraftValue(o, "model_group");
    AircraftValue(o, "model");
    AircraftValue(o, "make");
    ParamValueAppend(mg, md, "model_group");
    ParamValueAppend(mg + md, mk, "model_group");
    ParamValueAppend(mg, md, "model");
    ParamValueAppend(mg + md, mk, "model");
    ParamValueAppend(mg, md, "make");
    ParamValueAppend(mg + md, mk, "make");
  }

  lemma UpperKeepsSpace(s: string)
    requires ' ' in s
    ensures ' ' in ToUpper(s)
  {
    var i :| 0 <= i < |s| && s[i] == ' ';
    assert ToUpper(s)[i] == ' ';
  }

  lemma PlusLeavesNoSpace(s: string)
    ensures ' ' !in MapChar(s, ' ', '+')
  {
    var g := MapChar(s, ' ', '+');
    assert forall k :: 0 <= k < |g| ==> g[k] != ' ';
  }

  /** A space in the model option reaches the query as a space, while one in
      the model group becomes '+'. */
  lemma ModelKeepsSpaces(o: Options)
    requires ' ' in o.model && ' ' in o.modelGroup
    ensures var v := ParamValue(SearchParams(o), "model"); v.Some? && ' ' in v.value
    ensures var v := ParamValue(SearchParams(o), "model_group"); v.Some? && ' ' !in v.value
  {
    AircraftValues(o);
    UpperKeepsSpace(o.model);
    PlusLeavesNoSpace(ToUpper(o.modelGroup));
  }

  // ---------------------------------------------------------------------
  // Reading a query back, as the listing links are read.

  /** The `name=value` pieces of a parameter list. */
  function Pairs(ps: seq<Param>): (r: seq<string>)
    ensures |r| == |ps|
    ensures forall k :: 0 <= k < |ps| ==> r[k] == ps[k].name + "=" + ps[k].value
  {
    if ps == [] then [] else [ps[0].name + "=" + ps[0].value] + Pairs(ps[1..])
  }

  /** Neither '&' nor '=' occurs in the parameter's name or value. */
  predicate Plain(p: Param) {
    '&' !in p.name && '=' !in p.name && '&' !in p.value && '=' !in p.value
  }

  lemma {:induction false} RenderJoin(ps: seq<Param>)
    requires ps != []
    ensures Render(ps) == Join([""] + Pairs(ps), '&')
  {
    var head := ps[0].name + "=" + ps[0].value;
    if |ps| == 1 {
      assert ps[1..] == [];
      assert ([""] + Pairs(ps))[1..] == [head];
    } else {
      RenderJoin(ps[1..]);
      RenderJoinStep(ps);
    }
  }

  lemma RenderCons(ps: seq<Param>)
    requires ps != []
    ensures Render(ps) == "&" + (ps[0].name + "=" + ps[0].value) + Render(ps[1..])
  {
    AppendAssoc("&", ps[0].name + "=", ps[0].value);
    AppendAssoc("&", ps[0].name, "=");
  }

  /** The query of a list of two or more parameters, given that of its tail. */
  lemma RenderJoinStep(ps: seq<Param>)
    requires |ps| > 1
    requires Render(ps[1..]) == Join([""] + Pairs(ps[1..]), '&')
    ensures Render(ps) == Join([""] + Pairs(ps), '&')
  {
    var head := ps[0].name + "=" + ps[0].value;
    var rest := Pairs(ps[1..]);
    var j := Join(rest, '&');
    assert Pairs(ps) == [head] + rest;
    JoinCons("", rest, '&');
    JoinCons(head, rest, '&');
    JoinCons("", [head] + rest, '&');
    assert [""] + ([head] + rest) == [""] + Pairs(ps);
    RenderCons(ps);
    JoinGlue(Render(ps), Render(ps[1..]), Join([""] + Pairs(ps), '&'), head, j);
  }

  lemma JoinGlue(r: string, r1: string, joined: string, head: string, j: string)
    requires r == "&" + head + r1
    requires r1 == "" + ['&'] + j
    requires joined == "" + ['&'] + (head + ['&'] + j)
    ensures r == joined
  {
    assert "" + ['&'] == "&";
    AppendAssoc("&", head, "&" + j);
    AppendAssoc(head, "&", j);
  }

  /** Splitting a rendered query on '&' gives back its `name=value`
      pieces after the empty text before the first '&'. */
  lemma QuerySplit(ps: seq<Param>)
    requires ps != []
    requires forall k :: 0 <= k < |ps| ==> Plain(ps[k])
    ensures Split(Render(ps), '&') == [""] + Pairs(ps)
  {
    RenderJoin(ps);
    var parts := [""] + Pairs(ps);
    forall k | 0 <= k < |parts|
      ensures '&' !in parts[k]
    {
      if k > 0 {
        assert parts[k] == ps[k - 1].name + "=" + ps[k - 1].value;
      }
    }
    SplitJoin(parts, '&');
  }

  /** Splitting one `name=value` piece on '=' gives back name and value. */
  lemma PairSplit(p: Param)
    requires Plain(p)
    ensures Split(p.name + "=" + p.value, '=') == [p.name, p.value]
  {
    SplitAt(p.name, '=', p.value);
    SplitPlain(p.value, '=');
    assert p.name + "=" + p.value == p.name + ['='] + p.value;
  }
}
