/** The exhibition floor plan (index.tsx lines 1251-1370) and the booth form's
    pre-fill from the address (lines 619-628): eighteen fixed booths, a
    package filter that hides booths, status counts, a details dialog that
    sold booths never open, and an enquire link that the booth form reads
    back. */
module FloorPlan {
  import opened Wrappers
  import opened Text

  datatype Status = Available | Reserved | Sold
  datatype Package = Platinum | Gold | Silver | Basic
  datatype Booth = Booth(id: string, package: Package, status: Status)

  function StatusName(s: Status): string {
    match s
    case Available => "available"
    case Reserved => "reserved"
    case Sold => "sold"
  }

  function PackageName(p: Package): (n: string)
    ensures n != ""
  {
    match p
    case Platinum => "Platinum"
    case Gold => "Gold"
    case Silver => "Silver"
    case Basic => "Basic"
  }

  /** `booth.package.toLowerCase()`, which is also the filter value of each
      package's button. */
  function PackageKey(p: Package): (k: string)
    ensures k == Lower(PackageName(p))
  {
    match p
    case Platinum => LowerPlatinum(); "platinum"
    case Gold => LowerGold(); "gold"
    case Silver => LowerSilver(); "silver"
    case Basic => LowerBasic(); "basic"
  }

  lemma LowerPlatinum() ensures Lower("Platinum") == "platinum" {}
  lemma LowerGold() ensures Lower("Gold") == "gold" {}
  lemma LowerSilver() ensures Lower("Silver") == "silver" {}
  lemma LowerBasic() ensures Lower("Basic") == "basic" {}

  /** Different packages have different keys, so a package filter picks out
      exactly one package. */
  lemma PackageKeyInjective(p: Package, q: Package)
    ensures PackageKey(p) == PackageKey(q) <==> p == q
  {
  }

  const ROW_A := [Booth("A1", Platinum, Available), Booth("A2", Platinum, Sold),
                  Booth("A3", Gold, Available), Booth("A4", Gold, Reserved),
                  Booth("A5", Gold, Available), Booth("A6", Gold, Sold)]
  const ROW_B := [Booth("B1", Silver, Available), Booth("B2", Silver, Available),
                  Booth("B3", Silver, Reserved), Booth("B4", Silver, Available),
                  Booth("B5", Silver, Sold), Booth("B6", Silver, Available)]
  const ROW_C := [Booth("C1", Basic, Available), Booth("C2", Basic, Available),
                  Booth("C3", Basic, Available), Booth("C4", Basic, Available),
                  Booth("C5", Basic, Sold), Booth("C6", Basic, Sold)]

  /** `boothsData`. */
  const BOOTHS := ROW_A + ROW_B + ROW_C

  // ---------------------------------------------------------------- counts

  /** `boothsData.filter(b => b.status === s).length`. */
  function Count(bs: seq<Booth>, s: Status): (n: nat)
    ensures n <= |bs|
  {
    if bs == [] then 0 else (if bs[0].status == s then 1 else 0) + Count(bs[1..], s)
  }

  lemma {:induction false} CountAppend(a: seq<Booth>, b: seq<Booth>, s: Status)
    ensures Count(a + b, s) == Count(a, s) + Count(b, s)
  {
    if a == [] {
      assert a + b == b;
    } else {
      assert (a + b)[1..] == a[1..] + b;
      CountAppend(a[1..], b, s);
    }
  }

  /** Every booth has one of the three statuses, so the three counts add up to
      the number of booths. */
  lemma {:induction false} CountsCoverBooths(bs: seq<Booth>)
    ensures Count(bs, Available) + Count(bs, Reserved) + Count(bs, Sold) == |bs|
  {
    if bs != [] {
      CountsCoverBooths(bs[1..]);
    }
  }

  /** The counts the page shows for its booths: 11 available, 2 reserved and
      5 sold, 18 in all. */
  lemma BoothCounts()
    ensures Count(BOOTHS, Available) == 11 && Count(BOOTHS, Reserved) == 2 && Count(BOOTHS, Sold) == 5
    ensures |BOOTHS| == 18
  {
    RowCounts();
    CountAppend(ROW_A, ROW_B, Available);
    CountAppend(ROW_A + ROW_B, ROW_C, Available);
    CountAppend(ROW_A, ROW_B, Reserved);
    CountAppend(ROW_A + ROW_B, ROW_C, Reserved);
    CountAppend(ROW_A, ROW_B, Sold);
    CountAppend(ROW_A + ROW_B, ROW_C, Sold);
  }

  lemma RowCounts()
    ensures Count(ROW_A, Available) == 3 && Count(ROW_A, Reserved) == 1 && Count(ROW_A, Sold) == 2
    ensures Count(ROW_B, Available) == 4 && Count(ROW_B, Reserved) == 1 && Count(ROW_B, Sold) == 1
    ensures Count(ROW_C, Available) == 4 && Count(ROW_C, Reserved) == 0 && Count(ROW_C, Sold) == 2
  {
    RowA();
    RowB();
    RowC();
  }

  lemma RowA()
    ensures Count(ROW_A, Available) == 3 && Count(ROW_A, Reserved) == 1 && Count(ROW_A, Sold) == 2
  {
  }

  lemma RowB()
    ensures Count(ROW_B, Available) == 4 && Count(ROW_B, Reserved) == 1 && Count(ROW_B, Sold) == 1
  {
  }

  lemma RowC()
    ensures Count(ROW_C, Available) == 4 && Count(ROW_C, Reserved) == 0 && Count(ROW_C, Sold) == 2
  {
  }

  /** The three texts `updateCounts` writes. */
  datatype CountTexts = CountTexts(available: string, reserved: string, sold: string)

  function UpdateCounts(bs: seq<Booth>): (t: CountTexts)
    ensures AllDigits(t.available) && AllDigits(t.reserved) && AllDigits(t.sold)
    ensures DecimalValue(t.available) == Count(bs, Available) && DecimalValue(t.reserved) == Count(bs, Reserved)
    ensures DecimalValue(t.sold) == Count(bs, Sold)
    ensures DecimalValue(t.available) + DecimalValue(t.reserved) + DecimalValue(t.sold) == |bs|
  {
    DecimalOfNatToString(Count(bs, Available));
    DecimalOfNatToString(Count(bs, Reserved));
    DecimalOfNatToString(Count(bs, Sold));
    CountsCoverBooths(bs);
    CountTexts(NatToString(Count(bs, Available)), NatToString(Count(bs, Reserved)),
               NatToString(Count(bs, Sold)))
  }

  // ---------------------------------------------------------------- the map

  const ALL := "all"

  /** A booth is hidden when a filter other than "all" is active and the
      booth's lower-case package differs from it. */
  predicate IsHidden(filter: string, b: Booth) {
    filter != ALL && PackageKey(b.package) != filter
  }

  /** Under a package's filter exactly that package's booths show; under
      "all" every booth shows; under any other value none does. */
  lemma FilterPartition(filter: string, b: Booth)
    ensures filter == ALL ==> !IsHidden(filter, b)
    ensures forall p :: filter == PackageKey(p) ==> (!IsHidden(filter, b) <==> b.package == p)
    ensures filter != ALL && (forall p :: filter != PackageKey(p)) ==> IsHidden(filter, b)
  {
    forall p | filter == PackageKey(p)
      ensures !IsHidden(filter, b) <==> b.package == p
    {
      PackageKeyInjective(b.package, p);
    }
  }

  /** The element `renderBooths` creates for one booth. */
  datatype BoothView = BoothView(className: string, text: string, dataId: string, hidden: bool)

  function ViewOf(b: Booth, filter: string): (v: BoothView)
    ensures v.text == b.id && v.dataId == b.id
    ensures v.hidden <==> IsHidden(filter, b)
  {
    BoothView("booth " + StatusName(b.status) + " " + PackageKey(b.package), b.id, b.id, IsHidden(filter, b))
  }

  /** `dataset.filter || 'all'`: a button without a filter, or with an empty
      one, shows everything. */
  function FilterValue(dataFilter: Option<string>): (f: string)
    ensures f != ""
    ensures dataFilter.Some? && dataFilter.value != "" ==> f == dataFilter.value
  {
    if dataFilter.Some? && dataFilter.value != "" then dataFilter.value else ALL
  }

  /** A filter button without `data-filter`, or with an empty one, hides no
      booth: the map shows every booth. */
  lemma UnfilteredShowsAll(bs: seq<Booth>, dataFilter: Option<string>)
    requires dataFilter.None? || dataFilter.value == ""
    ensures forall i :: 0 <= i < |bs| ==> !Plan.Views(bs, FilterValue(dataFilter))[i].hidden
  {
    assert FilterValue(dataFilter) == ALL;
    forall i | 0 <= i < |bs|
      ensures !IsHidden(ALL, bs[i])
    {
      FilterPartition(ALL, bs[i]);
    }
  }

  // ---------------------------------------------------------------- details

  function PackageSize(p: Package): string {
    match p
    case Basic => "3x3 (9 sqm)"
    case Silver => "4x3 (12 sqm)"
    case Gold => "6x3 (18 sqm)"
    case Platinum => "7x3 (21 sqm)"
  }

  function Benefits(p: Package): seq<string> {
    match p
    case Basic => ["Standard-row booth", "Name on website list", "2 exhibitor passes", "Access to networking lounge"]
    case Silver => ["Priority row booth", "Logo on event website", "Name in event catalogs", "3 exhibitor passes"]
    case Gold => ["Prime hall location", "Logo + 50-word catalog feature", "4 passes + 1 speaking slot", "10% off add-ons"]
    case Platinum => ["Entrance corner booth", "Premium furniture & setup", "Top-tier logo placement",
                      "8 passes + 3 speaking slots", "Access to VIP lounge"]
  }

  const PAGE := "booth-registration.html"
  const BOOTH_KEY := "boothId"
  const PACKAGE_KEY := "package"

  /** The enquire button's address. */
  function EnquireHref(b: Booth): string {
    PAGE + "?" + BOOTH_KEY + "=" + b.id + "&" + PACKAGE_KEY + "=" + PackageName(b.package)
  }

  /** What the details dialog shows for a booth. */
  datatype Details = Details(title: string, idText: string, size: string, benefits: seq<string>,
                             status: string, statusClass: string, href: string)

  function DetailsOf(b: Booth): (d: Details)
    ensures d.href == EnquireHref(b) && d.status == StatusName(b.status)
  {
    Details(PackageName(b.package) + " Booth", "ID: " + b.id, PackageSize(b.package), Benefits(b.package),
            StatusName(b.status), "status-tag " + StatusName(b.status), EnquireHref(b))
  }

  /** The floor-plan section: the active filter, the map's booth elements, the
      active filter button and the details dialog. `hasMap` and `hasDialog`
      say whether the page has the map and the dialog. */
  class Plan {
    const booths: seq<Booth>
    const hasMap: bool
    const hasDialog: bool
    var activeFilter: string
    var rendered: seq<BoothView>
    var activeButton: Option<nat>
    var dialogVisible: bool
    var dialog: Option<Details>

    /** `initializeFloorPlan`: filter "all", then the first render. */
    constructor (bs: seq<Booth>, withMap: bool, withDialog: bool)
      ensures booths == bs && hasMap == withMap && hasDialog == withDialog
      ensures activeFilter == ALL && activeButton == None
      ensures !dialogVisible && dialog == None
      ensures rendered == (if withMap then Views(bs, ALL) else [])
    {
      booths := bs;
      hasMap := withMap;
      hasDialog := withDialog;
      activeFilter := ALL;
      rendered := [];
      activeButton := None;
      dialogVisible := false;
      dialog := None;
      new;
      RenderBooths();
    }

    /** The elements for the booths under a filter, in order. */
    static function Views(bs: seq<Booth>, filter: string): (vs: seq<BoothView>)
      ensures |vs| == |bs| && forall i :: 0 <= i < |bs| ==> vs[i] == ViewOf(bs[i], filter)
    {
      seq(|bs|, i requires 0 <= i < |bs| => ViewOf(bs[i], filter))
    }

    /** `renderBooths`: empty the map, then one element per booth. */
    method RenderBooths()
      modifies this`rendered
      ensures hasMap ==> rendered == Views(booths, activeFilter)
      ensures !hasMap ==> rendered == old(rendered)
    {
      if !hasMap {
        return;
      }
      var bs, filter := booths, activeFilter;
      var vs: seq<BoothView> := [];
      for i := 0 to |bs|
        invariant |vs| == i
        invariant forall j :: 0 <= j < i ==> vs[j] == ViewOf(bs[j], filter)
      {
        var v := ViewOf(bs[i], filter);
        vs := vs + [v];
      }
      ViewsAre(bs, filter, vs);
      rendered := vs;
    }

    static lemma ViewsAre(bs: seq<Booth>, filter: string, vs: seq<BoothView>)
      requires |vs| == |bs| && forall j :: 0 <= j < |bs| ==> vs[j] == ViewOf(bs[j], filter)
      ensures vs == Views(bs, filter)
    {
    }

    /** A click on filter button `k`, whose `data-filter` is `dataFilter`. */
    method ClickFilter(k: nat, dataFilter: Option<string>)
      modifies this`activeButton, this`activeFilter, this`rendered
      ensures activeButton == Some(k) && activeFilter == FilterValue(dataFilter)
      ensures hasMap ==> rendered == Views(booths, activeFilter)
      ensures !hasMap ==> rendered == old(rendered)
    {
      activeButton := Some(k);
      activeFilter := FilterValue(dataFilter);
      RenderBooths();
    }

    /** A click on the element of booth `i`: only a booth that is not sold
        opens the dialog, and only when the page has one. */
    method ClickBooth(i: nat)
      requires i < |booths|
      modifies this`dialogVisible, this`dialog
      ensures booths[i].status == Sold || !hasDialog ==> dialogVisible == old(dialogVisible) && dialog == old(dialog)
      ensures booths[i].status != Sold && hasDialog ==> dialogVisible && dialog == Some(DetailsOf(booths[i]))
    {
      if booths[i].status != Sold {
        ShowDetails(booths[i]);
      }
    }

    /** `showDetailsModal`: without a dialog it returns at once. */
    method ShowDetails(b: Booth)
      modifies this`dialogVisible, this`dialog
      ensures !hasDialog ==> dialogVisible == old(dialogVisible) && dialog == old(dialog)
      ensures hasDialog ==> dialogVisible && dialog == Some(DetailsOf(b))
    {
      if !hasDialog {
        return;
      }
      dialog := Some(DetailsOf(b));
      dialogVisible := true;
    }

    /** `hideDetailsModal`, run by the close button or a click on the
        backdrop; without a dialog it does nothing. */
    method HideDetails()
      modifies this`dialogVisible
      ensures hasDialog ==> !dialogVisible
      ensures !hasDialog ==> dialogVisible == old(dialogVisible)
    {
      if hasDialog {
        dialogVisible := false;
      }
    }
  }

  /** Under any filter the rendered map shows exactly the booths of the
      filtered package, keeping their ids in order. */
  lemma RenderedShowsPackage(bs: seq<Booth>, p: Package, i: nat)
    requires i < |bs|
    ensures var vs := Plan.Views(bs, PackageKey(p));
      vs[i].text == bs[i].id && (!vs[i].hidden <==> bs[i].package == p)
  {
    FilterPartition(PackageKey(p), bs[i]);
  }

  // ---------------------------------------------------------------- the booth form's pre-fill

  /** `location.search`: from the first '?' on, or empty. */
  function Search(href: string): (s: string)
    ensures s == [] || s[0] == '?'
  {
    var k := IndexOf(href, '?');
    if k == |href| then "" else href[k..]
  }

  /** The form decoding of a name or value: '+' stands for a space. */
  function Decode(s: string): (r: string)
    ensures |r| == |s|
  {
    seq(|s|, i requires 0 <= i < |s| => if s[i] == '+' then ' ' else s[i])
  }

  /** One `name=value` piece; without '=' the value is empty. */
  function Pair(piece: string): (string, string) {
    var k := IndexOf(piece, '=');
    if k == |piece| then (Decode(piece), "") else (Decode(piece[..k]), Decode(piece[k + 1..]))
  }

  /** `new URLSearchParams(search)`: a leading '?' dropped, pieces separated
      by '&', empty pieces skipped. */
  function Params(search: string): seq<(string, string)> {
    var q := if search != [] && search[0] == '?' then search[1..] else search;
    PairsOf(Split(q, '&'))
  }

  function PairsOf(pieces: seq<string>): seq<(string, string)> {
    if pieces == [] then []
    else if pieces[0] == "" then PairsOf(pieces[1..])
    else [Pair(pieces[0])] + PairsOf(pieces[1..])
  }

  /** `params.get(name)`: the value of the first pair with that name. */
  function Get(ps: seq<(string, string)>, name: string): (r: Option<string>)
    ensures r.Some? <==> exists i :: 0 <= i < |ps| && ps[i].0 == name
    ensures r.Some? ==> exists i :: 0 <= i < |ps| && ps[i] == (name, r.value) && NoneBefore(ps, name, i)
  {
    if ps == [] then None
    else if ps[0].0 == name then
      assert ps[0] == (name, ps[0].1) && NoneBefore(ps, name, 0);
      Some(ps[0].1)
    else
      var r := Get(ps[1..], name);
      assert r.Some? <==> exists i :: 0 <= i < |ps[1..]| && ps[1..][i].0 == name;
      assert forall i :: 0 < i < |ps| ==> ps[i] == ps[1..][i - 1];
      if r.Some? then
        var i :| 0 <= i < |ps[1..]| && ps[1..][i] == (name, r.value) && NoneBefore(ps[1..], name, i);
        assert ps[i + 1] == (name, r.value) && NoneBefore(ps, name, i + 1);
        r
      else r
  }

  /** No pair before position `i` has the name. */
  predicate NoneBefore(ps: seq<(string, string)>, name: string, i: nat)
    requires i <= |ps|
  {
    forall j :: 0 <= j < i ==> ps[j].0 != name
  }

  /** `Array.from(options).find(opt => opt.value.toLowerCase() === pkg.toLowerCase())`. */
  function FindOption(options: seq<string>, pkg: string): (r: Option<nat>)
    ensures r.Some? ==> r.value < |options| && Lower(options[r.value]) == Lower(pkg)
    ensures r.Some? ==> forall j :: 0 <= j < r.value ==> Lower(options[j]) != Lower(pkg)
    ensures r.None? ==> forall j :: 0 <= j < |options| ==> Lower(options[j]) != Lower(pkg)
  {
    if options == [] then None
    else if Lower(options[0]) == Lower(pkg) then Some(0)
    else
      match FindOption(options[1..], pkg)
      case None => None
      case Some(k) => Some(k + 1)
  }

  /** The two controls of the booth form that the pre-fill sets. */
  class BoothForm {
    const options: seq<string>
    var selected: nat
    var boothId: string

    constructor (opts: seq<string>, initial: nat)
      ensures options == opts && selected == initial && boothId == ""
    {
      options := opts;
      selected := initial;
      boothId := "";
    }

    /** The parameters, when present and non-empty, select the matching
        package option and fill the booth id. */
    method PreFill(search: string)
      modifies this
      ensures var pkg := Get(Params(search), PACKAGE_KEY);
        selected == (if pkg.Some? && pkg.value != "" && FindOption(options, pkg.value).Some?
                     then FindOption(options, pkg.value).value else old(selected))
      ensures var id := Get(Params(search), BOOTH_KEY);
        boothId == (if id.Some? && id.value != "" then id.value else old(boothId))
    {
      var ps := Params(search);
      var pkg := Get(ps, PACKAGE_KEY);
      var id := Get(ps, BOOTH_KEY);
      if pkg.Some? && pkg.value != "" {
        var option := FindOption(options, pkg.value);
        if option.Some? {
          selected := option.value;
        }
      }
      if id.Some? && id.value != "" {
        boothId := id.value;
      }
    }
  }

  /** A value made of letters and digits survives the form decoding. */
  lemma DecodeAlnum(s: string)
    requires forall i :: 0 <= i < |s| ==> IsAlnum(s[i])
    ensures Decode(s) == s
  {
  }

  lemma PieceReadsBack(name: string, value: string)
    requires forall i :: 0 <= i < |name| ==> IsAlnum(name[i])
    requires forall i :: 0 <= i < |value| ==> IsAlnum(value[i])
    ensures Pair(name + "=" + value) == (name, value)
  {
    var piece := name + "=" + value;
    assert forall i :: 0 <= i < |name| ==> piece[i] == name[i];
    IndexOfFirst(piece, '=', |name|);
    assert piece[..|name|] == name;
    assert piece[|name| + 1..] == value;
    DecodeAlnum(name);
    DecodeAlnum(value);
  }

  lemma PackageNameAlnum(p: Package)
    ensures forall i :: 0 <= i < |PackageName(p)| ==> IsAlnum(PackageName(p)[i])
  {
  }

  lemma KeysAlnum()
    ensures forall i :: 0 <= i < |BOOTH_KEY| ==> IsAlnum(BOOTH_KEY[i])
    ensures forall i :: 0 <= i < |PACKAGE_KEY| ==> IsAlnum(PACKAGE_KEY[i])
  {
  }

  /** A `name=value` piece of letters and digits holds no '&'. */
  lemma PieceHasNoSeparator(name: string, value: string)
    requires forall i :: 0 <= i < |name| ==> IsAlnum(name[i])
    requires forall i :: 0 <= i < |value| ==> IsAlnum(value[i])
    ensures '&' !in name + "=" + value
  {
    var piece := name + "=" + value;
    forall i | 0 <= i < |piece|
      ensures piece[i] != '&'
    {
      if i < |name| {
        assert piece[i] == name[i];
      } else if i > |name| {
        assert piece[i] == value[i - |name| - 1];
      }
    }
  }

  /** Everything from the first '?' of an address whose page has none. */
  lemma SearchAfterPage(page: string, query: string)
    requires '?' !in page
    ensures Search(page + "?" + query) == "?" + query
  {
    var href := page + "?" + query;
    assert forall i :: 0 <= i < |page| ==> href[i] == page[i];
    IndexOfFirst(href, '?', |page|);
    assert href[|page|..] == "?" + query;
  }

  lemma PageHasNoQuery()
    ensures '?' !in PAGE
  {
  }

  /** The search part of the enquire link. */
  lemma EnquireSearch(b: Booth)
    ensures Search(EnquireHref(b)) ==
      "?" + (BOOTH_KEY + "=" + b.id) + "&" + (PACKAGE_KEY + "=" + PackageName(b.package))
  {
    var query := (BOOTH_KEY + "=" + b.id) + "&" + (PACKAGE_KEY + "=" + PackageName(b.package));
    assert EnquireHref(b) == PAGE + "?" + query;
    PageHasNoQuery();
    SearchAfterPage(PAGE, query);
  }

  /** A search of two non-empty pieces without '&' gives their two pairs. */
  lemma TwoPieces(first: string, second: string)
    requires first != "" && second != "" && '&' !in first && '&' !in second
    ensures Params("?" + first + "&" + second) == [Pair(first), Pair(second)]
  {
    var query := first + "&" + second;
    assert ("?" + first + "&" + second)[1..] == query;
    SplitJoin([first, second], '&');
    assert Join([first, second], "&") == query;
    var pieces := Split(query, '&');
    assert pieces == [first, second];
    assert pieces[1..] == [second];
    assert PairsOf(pieces[1..]) == [Pair(second)];
  }

  /** The enquire link's parameters, read back by the booth form, are the
      booth's id and package name. */
  lemma EnquireParams(b: Booth)
    requires forall i :: 0 <= i < |b.id| ==> IsAlnum(b.id[i])
    ensures Get(Params(Search(EnquireHref(b))), BOOTH_KEY) == Some(b.id)
    ensures Get(Params(Search(EnquireHref(b))), PACKAGE_KEY) == Some(PackageName(b.package))
  {
    var pkg := PackageName(b.package);
    var first, second := BOOTH_KEY + "=" + b.id, PACKAGE_KEY + "=" + pkg;
    EnquireSearch(b);
    KeysAlnum();
    PackageNameAlnum(b.package);
    PieceHasNoSeparator(BOOTH_KEY, b.id);
    PieceHasNoSeparator(PACKAGE_KEY, pkg);
    TwoPieces(first, second);
    PieceReadsBack(BOOTH_KEY, b.id);
    PieceReadsBack(PACKAGE_KEY, pkg);
    var ps := Params(Search(EnquireHref(b)));
    assert ps == [(BOOTH_KEY, b.id), (PACKAGE_KEY, pkg)];
    assert ps[1..] == [(PACKAGE_KEY, pkg)];
  }

  /** Following the enquire link of a booth on the plan selects the first
      option matching the booth's package, when there is one, and fills in
      the booth's id. */
  lemma EnquireRoundTrip(b: Booth, options: seq<string>)
    requires b in BOOTHS
    ensures var ps := Params(Search(EnquireHref(b)));
      var pkg := Get(ps, PACKAGE_KEY); var id := Get(ps, BOOTH_KEY);
      id == Some(b.id) && b.id != "" && pkg.Some? && pkg.value != "" &&
      Lower(pkg.value) == PackageKey(b.package) &&
      (FindOption(options, pkg.value).Some? <==>
         exists j :: 0 <= j < |options| && Lower(options[j]) == PackageKey(b.package))
  {
    BoothIdsAlnum(b);
    EnquireParams(b);
    var ps := Params(Search(EnquireHref(b)));
    assert Get(ps, PACKAGE_KEY).value == PackageName(b.package);
  }

  lemma BoothIdsAlnum(b: Booth)
    requires b in BOOTHS
    ensures b.id != "" && forall i :: 0 <= i < |b.id| ==> IsAlnum(b.id[i])
  {
    assert b in ROW_A || b in ROW_B || b in ROW_C;
  }
}
