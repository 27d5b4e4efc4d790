/** `$addons.parseSpreadsheet`: every spreadsheet row becomes an add-on
    record; the positive bug numbers are looked up in Bugzilla and each
    bug's resolution decides whether its add-on is compatible. The add-on
    list is an array the resolution loop updates in place; `bugToAddonMap`,
    which in the script holds references to the records, is a map from bug
    number to the record's position in that array. */
module Addons {
  import opened Js
  import GData

  /** `compatible`: `null` (not tested), `true` or `false`. */
  datatype Compat = NotTested | Compatible | Incompatible

  /** `addon.date`: `Date.parse` of a non-empty `addondate`, otherwise the
      column's text (or undefined) as it was. */
  datatype AddonDate = Unparsed(text: Option<string>) | Parsed(time: Number)

  /** The add-on record `{name, tier, amoURL, date, compatible, bug, bugURL, notes}`. */
  datatype Addon = Addon(name: Option<string>, tier: Number, amoURL: string, date: AddonDate,
                         compatible: Compat, bug: Option<Number>, bugURL: Option<string>, notes: Option<string>)

  /** The calls the parser makes into code that is not modelled: the
      title encoding of the feed parser, the unary `+` on a string,
      `$bugz.makeURL` and `Date.parse`. */
  datatype Library = Library(encode: string -> string, toNumber: string -> Number,
                             makeBugURL: string -> string, parseDate: string -> Number)

  /** `row[key]`: undefined when the key is absent. */
  function Lookup(row: GData.Row, key: string): Option<string> {
    if key in row then row[key] else None
  }

  /** `+v` for a value that may be undefined (`+undefined` is NaN). */
  function ToNumberOf(v: Option<string>, lib: Library): Number {
    if v.Some? then lib.toNumber(v.value) else NaN
  }

  /** A value that may be undefined, as string concatenation shows it. */
  function Text(v: Option<string>): string {
    if v.Some? then v.value else "undefined"
  }

  /** The "I'm feeling lucky" search for the add-on's page, used when the row has no `amourl`. */
  const SiteSearch: string := "https://www.google.com/search?btnI=1&q=site%3Aaddons.mozilla.org+"

  /** The record the `_.map` callback makes of one row. */
  function AddonOf(row: GData.Row, lib: Library): Addon {
    var name := Lookup(row, "title");
    var raw := Lookup(row, "bug");
    var bug := if raw.Some? then Some(lib.toNumber(raw.value)) else None;
    var bugURL := if raw.Some? then Some(lib.makeBugURL(raw.value)) else None;
    var compatible := if raw.Some? && !Greater(lib.toNumber(raw.value), 0.0) then Compatible else NotTested;
    var dateText := Lookup(row, "addondate");
    var date := if TruthyText(dateText) then Parsed(lib.parseDate(dateText.value)) else Unparsed(dateText);
    var amo := Lookup(row, "amourl");
    var amoURL := if TruthyText(amo) then amo.value else SiteSearch + Text(name);
    Addon(name, ToNumberOf(Lookup(row, "tier"), lib), amoURL, date, compatible, bug, bugURL, Lookup(row, "notes"))
  }

  /** `_.map(rows, ...)`: one record per row, in row order. */
  function AddonsOf(rows: seq<GData.Row>, lib: Library): seq<Addon> {
    seq(|rows|, i requires 0 <= i < |rows| => AddonOf(rows[i], lib))
  }

  lemma AddonsOfSnoc(rows: seq<GData.Row>, i: nat, lib: Library)
    requires i < |rows|
    ensures AddonsOf(rows[..i + 1], lib) == AddonsOf(rows[..i], lib) + [AddonOf(rows[i], lib)]
  {
    var a, b := AddonsOf(rows[..i + 1], lib), AddonsOf(rows[..i], lib) + [AddonOf(rows[i], lib)];
    assert |a| == |b|;
    forall j | 0 <= j < |a|
      ensures a[j] == b[j]
    {
      assert rows[..i + 1][j] == rows[j];
      if j < i {
        assert rows[..i][j] == rows[j];
      }
    }
  }

  /** The bug number of an add-on that is looked up: a number greater than 0. */
  predicate Queried(a: Addon) {
    a.bug.Some? && Greater(a.bug.value, 0.0)
  }

  /** `bugIDs`: the positive bug numbers, in row order. */
  function QueriedIds(addons: seq<Addon>): seq<real> {
    if |addons| == 0 then []
    else
      var a := addons[|addons| - 1];
      QueriedIds(addons[..|addons| - 1]) + (if Queried(a) then [a.bug.value.value] else [])
  }

  /** An add-on that gets a `bugToAddonMap` entry: its bug is truthy. */
  predicate Mapped(a: Addon) {
    a.bug.Some? && Truthy(a.bug.value)
  }

  /** The assignments `bugToAddonMap[bug] = addon`, in row order, with the
      add-on given by its position. */
  function BugIndex(addons: seq<Addon>): seq<(real, nat)> {
    if |addons| == 0 then []
    else
      var a := addons[|addons| - 1];
      BugIndex(addons[..|addons| - 1]) + (if Mapped(a) then [(a.bug.value.value, |addons| - 1)] else [])
  }

  /** The body of the `_.map` callback: reads one row into a record. */
  method ReadRow(row: GData.Row, lib: Library) returns (addon: Addon)
    ensures addon == AddonOf(row, lib)
  {
    var name := Lookup(row, "title");
    var tier := ToNumberOf(Lookup(row, "tier"), lib);
    var notes := Lookup(row, "notes");
    var bugURL: Option<string> := None;
    var compatible := NotTested;
    var raw := Lookup(row, "bug");
    var bug: Option<Number> := None;
    if raw.Some? {
      bugURL := Some(lib.makeBugURL(raw.value));
      var n := lib.toNumber(raw.value);
      bug := Some(n);
      if !Greater(n, 0.0) {
        compatible := Compatible;
      }
    }
    var dateText := Lookup(row, "addondate");
    var date := Unparsed(dateText);
    if TruthyText(dateText) {
      date := Parsed(lib.parseDate(dateText.value));
    }
    var amoURL := Lookup(row, "amourl");
    var url := if TruthyText(amoURL) then amoURL.value else SiteSearch + Text(name);
    addon := Addon(name, tier, url, date, compatible, bug, bugURL, notes);
  }

  lemma QueriedIdsSnoc(addons: seq<Addon>, a: Addon)
    ensures QueriedIds(addons + [a]) == QueriedIds(addons) + (if Queried(a) then [a.bug.value.value] else [])
    ensures BugIndex(addons + [a]) == BugIndex(addons) + (if Mapped(a) then [(a.bug.value.value, |addons|)] else [])
  {
    assert (addons + [a])[..|addons|] == addons;
  }

  lemma {:induction false} AssignBounded(pairs: seq<(real, nat)>, n: nat)
    requires forall j :: 0 <= j < |pairs| ==> pairs[j].1 < n
    ensures IndexWithin(Assign(pairs), n)
  {
    if |pairs| > 0 {
      AssignBounded(pairs[..|pairs| - 1], n);
    }
  }

  /** `bugToAddonMap` once every row is read: each truthy bug number, bound
      to the position of an add-on. */
  function BugToAddon(addons: seq<Addon>): (m: map<real, nat>)
    ensures IndexWithin(m, |addons|)
  {
    BugIndexEntries(addons);
    AssignBounded(BugIndex(addons), |addons|);
    Assign<real, nat>(BugIndex(addons))
  }

  /** The `_.map` over the rows, with the pushes onto `bugIDs` and the
      writes to `bugToAddonMap` its callback makes as it goes. */
  method CollectAddons(rows: seq<GData.Row>, lib: Library) returns (addons: seq<Addon>, bugIDs: seq<real>, bugToAddonMap: map<real, nat>)
    ensures addons == AddonsOf(rows, lib)
    ensures bugIDs == QueriedIds(addons)
    ensures bugToAddonMap == BugToAddon(addons)
  {
    addons, bugIDs, bugToAddonMap := [], [], map[];
    for i := 0 to |rows|
      invariant |addons| == i
      invariant addons == AddonsOf(rows[..i], lib)
      invariant bugIDs == QueriedIds(addons)
      invariant bugToAddonMap == Assign<real, nat>(BugIndex(addons))
    {
      var addon := ReadRow(rows[i], lib);
      QueriedIdsSnoc(addons, addon);
      if Queried(addon) {
        bugIDs := bugIDs + [addon.bug.value.value];
      } else {
        assert bugIDs + [] == bugIDs;
      }
      if Mapped(addon) {
        AssignSnoc(BugIndex(addons), addon.bug.value.value, i);
        bugToAddonMap := bugToAddonMap[addon.bug.value.value := i];
      } else {
        assert BugIndex(addons) + [] == BugIndex(addons);
      }
      AddonsOfSnoc(rows, i, lib);
      addons := addons + [addon];
    }
    assert rows[..|rows|] == rows;
  }

  // ---------------------------------------------------------------------
  // What a row becomes

  /** A row without a `bug` value: no bug, no bug URL, not tested, not looked up. */
  lemma RowWithoutBug(row: GData.Row, lib: Library)
    requires Lookup(row, "bug").None?
    ensures AddonOf(row, lib).bug.None? && AddonOf(row, lib).bugURL.None?
    ensures AddonOf(row, lib).compatible == NotTested && !Queried(AddonOf(row, lib)) && !Mapped(AddonOf(row, lib))
  {
  }

  /** A row whose bug is a number greater than 0 is looked up and stays
      untested until its resolution is known; any other bug value (0, a
      negative number, NaN) means compatible, and is not looked up. */
  lemma RowWithBug(row: GData.Row, lib: Library)
    requires Lookup(row, "bug").Some?
    ensures var a, raw := AddonOf(row, lib), Lookup(row, "bug").value;
            a.bug == Some(lib.toNumber(raw)) && a.bugURL == Some(lib.makeBugURL(raw)) &&
            (Queried(a) <==> Greater(lib.toNumber(raw), 0.0)) &&
            (a.compatible == if Greater(lib.toNumber(raw), 0.0) then NotTested else Compatible)
  {
  }

  /** A missing or empty `amourl` is replaced by the site search for the add-on's name. */
  lemma AmoFallback(row: GData.Row, lib: Library)
    ensures TruthyText(Lookup(row, "amourl")) ==> AddonOf(row, lib).amoURL == Lookup(row, "amourl").value
    ensures !TruthyText(Lookup(row, "amourl")) ==>
              AddonOf(row, lib).amoURL == SiteSearch + Text(Lookup(row, "title")) &&
              AddonOf(row, lib).amoURL[..|SiteSearch|] == SiteSearch
  {
  }

  /** The bug numbers looked up are, in order, those of the add-ons whose
      bug is a number greater than 0. */
  lemma {:induction false} QueriedIdsAre(addons: seq<Addon>)
    ensures |QueriedIds(addons)| <= |addons|
    ensures forall x :: x in QueriedIds(addons) <==> exists i :: 0 <= i < |addons| && Queried(addons[i]) && addons[i].bug.value.value == x
  {
    if |addons| > 0 {
      var init := addons[..|addons| - 1];
      QueriedIdsAre(init);
      forall x | x in QueriedIds(addons)
        ensures exists i :: 0 <= i < |addons| && Queried(addons[i]) && addons[i].bug.value.value == x
      {
        if x in QueriedIds(init) {
          var i :| 0 <= i < |init| && Queried(init[i]) && init[i].bug.value.value == x;
          assert addons[i] == init[i];
        } else {
          assert Queried(addons[|addons| - 1]) && addons[|addons| - 1].bug.value.value == x;
        }
      }
      forall x | exists i :: 0 <= i < |addons| && Queried(addons[i]) && addons[i].bug.value.value == x
        ensures x in QueriedIds(addons)
      {
        var i :| 0 <= i < |addons| && Queried(addons[i]) && addons[i].bug.value.value == x;
        if i < |init| {
          assert init[i] == addons[i];
        }
      }
    }
  }

  lemma {:induction false} BugIndexEntries(addons: seq<Addon>)
    ensures forall j :: 0 <= j < |BugIndex(addons)| ==>
              BugIndex(addons)[j].1 < |addons| && Mapped(addons[BugIndex(addons)[j].1]) &&
              addons[BugIndex(addons)[j].1].bug.value.value == BugIndex(addons)[j].0
    ensures forall j, l :: 0 <= j < l < |BugIndex(addons)| ==> BugIndex(addons)[j].1 < BugIndex(addons)[l].1
    ensures forall i :: 0 <= i < |addons| && Mapped(addons[i]) ==>
              exists j :: 0 <= j < |BugIndex(addons)| && BugIndex(addons)[j].1 == i
  {
    if |addons| > 0 {
      var init := addons[..|addons| - 1];
      BugIndexEntries(init);
      var b := BugIndex(init);
      forall j | 0 <= j < |b|
        ensures addons[b[j].1] == init[b[j].1]
      {
      }
      forall i | 0 <= i < |addons| && Mapped(addons[i])
        ensures exists j :: 0 <= j < |BugIndex(addons)| && BugIndex(addons)[j].1 == i
      {
        if i < |init| {
          assert init[i] == addons[i];
          var j :| 0 <= j < |b| && b[j].1 == i;
          assert BugIndex(addons)[j] == b[j];
        } else {
          assert BugIndex(addons)[|BugIndex(addons)| - 1].1 == i;
        }
      }
    }
  }

  /** `bugToAddonMap` has an entry exactly for each truthy bug number, and
      it names the LAST add-on with that bug: a later row with the same bug
      takes the entry over. */
  lemma BugMapEntries(addons: seq<Addon>, k: real)
    ensures k in Assign<real, nat>(BugIndex(addons)) <==> exists i :: 0 <= i < |addons| && Mapped(addons[i]) && addons[i].bug.value.value == k
    ensures k in Assign<real, nat>(BugIndex(addons)) ==>
              var i := Assign<real, nat>(BugIndex(addons))[k];
              i < |addons| && Mapped(addons[i]) && addons[i].bug.value.value == k &&
              forall l :: i < l < |addons| && Mapped(addons[l]) ==> addons[l].bug.value.value != k
  {
    BugMapKeys(addons, k);
    if k in Assign<real, nat>(BugIndex(addons)) {
      var last := AssignLast(BugIndex(addons), k);
      BugIndexEntries(addons);
      NoLaterEntry(addons, k, last);
    }
  }

  lemma BugMapKeys(addons: seq<Addon>, k: real)
    ensures k in Assign<real, nat>(BugIndex(addons)) <==> exists i :: 0 <= i < |addons| && Mapped(addons[i]) && addons[i].bug.value.value == k
  {
    var b := BugIndex(addons);
    AssignHas(b, k);
    BugIndexEntries(addons);
    if k in Assign(b) {
      var j :| 0 <= j < |b| && b[j].0 == k;
      assert Mapped(addons[b[j].1]) && addons[b[j].1].bug.value.value == k;
    }
    if exists i :: 0 <= i < |addons| && Mapped(addons[i]) && addons[i].bug.value.value == k {
      var i :| 0 <= i < |addons| && Mapped(addons[i]) && addons[i].bug.value.value == k;
      var j :| 0 <= j < |b| && b[j].1 == i;
      assert b[j].0 == k;
    }
  }

  lemma NoLaterEntry(addons: seq<Addon>, k: real, last: nat)
    requires last < |BugIndex(addons)|
    requires forall m :: last < m < |BugIndex(addons)| ==> BugIndex(addons)[m].0 != k
    ensures forall l :: BugIndex(addons)[last].1 < l < |addons| && Mapped(addons[l]) ==> addons[l].bug.value.value != k
  {
    forall l | BugIndex(addons)[last].1 < l < |addons| && Mapped(addons[l])
      ensures addons[l].bug.value.value != k
    {
      LaterEntry(addons, k, last, l);
    }
  }

  /** A mapped add-on after the one an entry names has an entry after it. */
  lemma LaterEntry(addons: seq<Addon>, k: real, last: nat, l: nat)
    requires last < |BugIndex(addons)| && BugIndex(addons)[last].1 < l < |addons| && Mapped(addons[l])
    requires forall m :: last < m < |BugIndex(addons)| ==> BugIndex(addons)[m].0 != k
    ensures addons[l].bug.value.value != k
  {
    var b := BugIndex(addons);
    BugIndexEntries(addons);
    var m :| 0 <= m < |b| && b[m].1 == l;
    assert last < m;
  }

  // ---------------------------------------------------------------------
  // Resolutions

  /** `bug.resolution`: the values `$bugz.resolution` names, and any other text. */
  datatype Resolution = Fixed | WorksForMe | Duplicate | Invalid | Incomplete | Unresolved | WontFix | Other(text: string)

  /** One bug of the search result: `{id, resolution}`. */
  datatype BugStatus = BugStatus(id: real, resolution: Resolution)

  /** What `$bugz.searchBugs` hands its callback. */
  datatype BugSearch = SearchError | Bugs(bugs: seq<BugStatus>)

  /** The `switch`: FIXED and WORKSFORME mean compatible; every other
      resolution, listed or not, falls through to incompatible. */
  function CompatOf(r: Resolution): (c: Compat)
    ensures c != NotTested
    ensures c == Compatible <==> r == Fixed || r == WorksForMe
  {
    match r
    case Fixed => Compatible
    case WorksForMe => Compatible
    case Duplicate => Incompatible
    case Invalid => Incompatible
    case Incomplete => Incompatible
    case Unresolved => Incompatible
    case WontFix => Incompatible
    case Other(_) => Incompatible
  }

  /** Every entry of the map names an add-on of the list. */
  predicate IndexWithin(index: map<real, nat>, n: nat) {
    forall k :: k in index ==> index[k] < n
  }

  /** The add-ons after the resolution loop has seen `bugs`, and whether it
      got through: a bug whose id has no entry makes `addon` undefined, and
      setting its `compatible` throws. */
  function Applied(addons: seq<Addon>, index: map<real, nat>, bugs: seq<BugStatus>): (r: (seq<Addon>, bool))
    requires IndexWithin(index, |addons|)
    ensures |r.0| == |addons|
  {
    if |bugs| == 0 then (addons, true)
    else
      var (s, ok) := Applied(addons, index, bugs[..|bugs| - 1]);
      var bug := bugs[|bugs| - 1];
      if !ok then (s, false)
      else if bug.id !in index then (s, false)
      else
        var i := index[bug.id];
        (s[i := s[i].(compatible := CompatOf(bug.resolution))], true)
  }

  lemma AppliedStep(addons: seq<Addon>, index: map<real, nat>, bugs: seq<BugStatus>, n: nat)
    requires IndexWithin(index, |addons|) && n < |bugs|
    ensures Applied(addons, index, bugs[..n + 1]) ==
              var (s, ok) := Applied(addons, index, bugs[..n]);
              if !ok || bugs[n].id !in index then (s, false)
              else (s[index[bugs[n].id] := s[index[bugs[n].id]].(compatible := CompatOf(bugs[n].resolution))], true)
  {
    assert bugs[..n + 1][..n] == bugs[..n];
  }

  /** The `_.forEach(bugs, ...)` of the search callback: sets `compatible`
      of the add-on each bug maps to, in place, and stops where an id has
      no add-on. */
  method ApplyResolutions(addons: array<Addon>, bugToAddonMap: map<real, nat>, bugs: seq<BugStatus>) returns (ok: bool)
    requires IndexWithin(bugToAddonMap, addons.Length)
    modifies addons
    ensures (addons[..], ok) == Applied(old(addons[..]), bugToAddonMap, bugs)
  {
    ghost var start := addons[..];
    for n := 0 to |bugs|
      invariant (addons[..], true) == Applied(start, bugToAddonMap, bugs[..n])
    {
      AppliedStep(start, bugToAddonMap, bugs, n);
      var bug := bugs[n];
      if bug.id !in bugToAddonMap {
        assert bugs[..n + 1] <= bugs;
        AppliedStops(start, bugToAddonMap, bugs, n + 1);
        return false;
      }
      var i := bugToAddonMap[bug.id];
      addons[i] := addons[i].(compatible := CompatOf(bug.resolution));
    }
    assert bugs[..|bugs|] == bugs;
    return true;
  }

  /** Once the loop has thrown, nothing more changes. */
  lemma {:induction false} AppliedStops(addons: seq<Addon>, index: map<real, nat>, bugs: seq<BugStatus>, n: nat)
    requires IndexWithin(index, |addons|) && n <= |bugs|
    requires !Applied(addons, index, bugs[..n]).1
    ensures Applied(addons, index, bugs) == Applied(addons, index, bugs[..n])
    decreases |bugs| - n
  {
    if n < |bugs| {
      AppliedStep(addons, index, bugs, n);
      AppliedStops(addons, index, bugs, n + 1);
    } else {
      assert bugs[..n] == bugs;
    }
  }

  /** Resolutions only ever change `compatible`. */
  lemma {:induction false} AppliedKeepsFields(addons: seq<Addon>, index: map<real, nat>, bugs: seq<BugStatus>)
    requires IndexWithin(index, |addons|)
    ensures var s := Applied(addons, index, bugs).0;
            forall i :: 0 <= i < |addons| ==> s[i] == addons[i].(compatible := s[i].compatible)
  {
    if |bugs| > 0 {
      AppliedKeepsFields(addons, index, bugs[..|bugs| - 1]);
    }
  }

  /** An add-on that no bug id maps to keeps its `compatible`. */
  lemma {:induction false} AppliedUntouched(addons: seq<Addon>, index: map<real, nat>, bugs: seq<BugStatus>, i: nat)
    requires IndexWithin(index, |addons|) && i < |addons|
    requires forall n :: 0 <= n < |bugs| && bugs[n].id in index ==> index[bugs[n].id] != i
    ensures Applied(addons, index, bugs).0[i].compatible == addons[i].compatible
  {
    if |bugs| > 0 {
      var init := bugs[..|bugs| - 1];
      forall n | 0 <= n < |init| && init[n].id in index
        ensures index[init[n].id] != i
      {
        assert init[n] == bugs[n];
      }
      AppliedUntouched(addons, index, init, i);
    }
  }

  /** When every bug is known, the add-on a bug id maps to ends with the
      compatibility of the last bug that maps to it. */
  lemma {:induction false} AppliedLast(addons: seq<Addon>, index: map<real, nat>, bugs: seq<BugStatus>, n: nat)
    requires IndexWithin(index, |addons|) && n < |bugs| && bugs[n].id in index
    requires forall m :: n < m < |bugs| && bugs[m].id in index ==> index[bugs[m].id] != index[bugs[n].id]
    requires Applied(addons, index, bugs).1
    ensures Applied(addons, index, bugs).0[index[bugs[n].id]].compatible == CompatOf(bugs[n].resolution)
  {
    var init := bugs[..|bugs| - 1];
    if n < |init| {
      assert init[n] == bugs[n];
      forall m | n < m < |init| && init[m].id in index
        ensures index[init[m].id] != index[init[n].id]
      {
        assert init[m] == bugs[m];
      }
      AppliedLast(addons, index, init, n);
    }
  }

  /** A bug number that several rows share is looked up once per row, but
      only the last of those rows gets the resolution: the earlier ones
      keep `compatible` as the row gave it. */
  lemma SharedBugUpdatesLastRow(addons: seq<Addon>, bugs: seq<BugStatus>, i: nat, l: nat)
    requires i < l < |addons|
    requires Mapped(addons[i]) && Mapped(addons[l]) && addons[i].bug == addons[l].bug
    ensures Applied(addons, BugToAddon(addons), bugs).0[i].compatible == addons[i].compatible
  {
    var index := BugToAddon(addons);
    forall n | 0 <= n < |bugs| && bugs[n].id in index
      ensures index[bugs[n].id] != i
    {
      BugMapEntries(addons, bugs[n].id);
    }
    AppliedUntouched(addons, index, bugs, i);
  }

  // ---------------------------------------------------------------------
  // `$addons.parseSpreadsheet(json, callback)`

  /** The arguments `callback(error, addons)` is called with. */
  datatype Callback = Callback(error: bool, addons: seq<Addon>)

  /** The search callback: on an error the add-ons are handed on as they
      are; otherwise the resolutions are applied, and when one of them
      throws the callback is never called (None). */
  function CallbackOf(addons: seq<Addon>, response: BugSearch): Option<Callback> {
    match response
    case SearchError => Some(Callback(true, addons))
    case Bugs(bugs) =>
      var (s, ok) := Applied(addons, BugToAddon(addons), bugs);
      if ok then Some(Callback(false, s)) else None
  }

  /** `$addons.parseSpreadsheet`: the rows of the feed become add-ons, the
      positive bug numbers are searched for (`search` stands for Bugzilla)
      and the callback gets the add-ons. Returns the ids searched for and
      the callback's arguments. */
  method ParseSpreadsheet(feed: GData.Feed, lib: Library, search: seq<real> -> BugSearch)
    returns (bugIDs: seq<real>, result: Option<Callback>)
    ensures bugIDs == QueriedIds(AddonsOf(GData.RowsOf(GData.Entries(feed), lib.encode), lib))
    ensures result == CallbackOf(AddonsOf(GData.RowsOf(GData.Entries(feed), lib.encode), lib), search(bugIDs))
  {
    var rows := GData.ParseSpreadsheet(feed, lib.encode);
    var addons, bugToAddonMap;
    addons, bugIDs, bugToAddonMap := CollectAddons(rows, lib);
    var response := search(bugIDs);
    if response.SearchError? {
      return bugIDs, Some(Callback(true, addons));
    }
    var records := new Addon[|addons|](i requires 0 <= i < |addons| => addons[i]);
    assert records[..] == addons;
    var ok := ApplyResolutions(records, bugToAddonMap, response.bugs);
    if !ok {
      return bugIDs, None;
    }
    return bugIDs, Some(Callback(false, records[..]));
  }

  /** On a search error no add-on is changed; otherwise each add-on keeps
      every field but `compatible`. */
  lemma CallbackKeepsAddons(rows: seq<GData.Row>, lib: Library, response: BugSearch)
    ensures var addons := AddonsOf(rows, lib);
            response.SearchError? ==> CallbackOf(addons, response) == Some(Callback(true, addons))
    ensures var addons := AddonsOf(rows, lib);
            CallbackOf(addons, response).Some? ==>
              var out := CallbackOf(addons, response).value.addons;
              |out| == |rows| && forall i :: 0 <= i < |rows| ==> out[i] == AddonOf(rows[i], lib).(compatible := out[i].compatible)
  {
    var addons := AddonsOf(rows, lib);
    if response.Bugs? {
      AppliedKeepsFields(addons, BugToAddon(addons), response.bugs);
    }
  }
}
