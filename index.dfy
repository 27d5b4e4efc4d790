/** `$index.onSpreadsheet`: the add-on table. Add-ons are split into
    compatible, untested and incompatible lists (dropping untested add-ons
    of tier 3 and above); the first and last lists are sorted by name in
    place, the untested list is shuffled in place, and each add-on becomes
    one table row. */
module Index {
  import opened Js
  import opened Addons
  import GData

  // ---------------------------------------------------------------------
  // The tier filter and the three-way partition

  /** An add-on the table shows: all except untested ones whose tier is above 2
      (a NaN tier is never above 2). */
  predicate Shown(a: Addon) {
    !(Greater(a.tier, 2.0) && a.compatible == NotTested)
  }

  /** The add-ons that go to the list for compatibility `c`. */
  function ShownWith(c: Compat): Addon -> bool {
    (a: Addon) => Shown(a) && a.compatible == c
  }

  lemma ShownWithIs(c: Compat, a: Addon)
    ensures ShownWith(c)(a) <==> Shown(a) && a.compatible == c
  {
  }

  /** The three lists as the `_.forEach` leaves them after the add-ons `seen`. */
  predicate Partitioned(seen: seq<Addon>, good: seq<Addon>, untested: seq<Addon>, bad: seq<Addon>) {
    good == Filter(seen, ShownWith(Compatible)) &&
    untested == Filter(seen, ShownWith(NotTested)) &&
    bad == Filter(seen, ShownWith(Incompatible))
  }

  /** The list for `c` after `addon` was seen. */
  function PushIf(list: seq<Addon>, addon: Addon, c: Compat): seq<Addon> {
    if Shown(addon) && addon.compatible == c then list + [addon] else list
  }

  lemma FilterStep(prefix: seq<Addon>, addon: Addon, c: Compat)
    ensures Filter(prefix + [addon], ShownWith(c)) == PushIf(Filter(prefix, ShownWith(c)), addon, c)
  {
    FilterSnoc(prefix, addon, ShownWith(c));
    ShownWithIs(c, addon);
    assert Filter(prefix, ShownWith(c)) + [] == Filter(prefix, ShownWith(c));
  }

  lemma PartitionStep(prefix: seq<Addon>, addon: Addon, next: seq<Addon>, good: seq<Addon>, untested: seq<Addon>, bad: seq<Addon>)
    requires Partitioned(prefix, good, untested, bad) && next == prefix + [addon]
    ensures Partitioned(next, PushIf(good, addon, Compatible), PushIf(untested, addon, NotTested), PushIf(bad, addon, Incompatible))
  {
    FilterStep(prefix, addon, Compatible);
    FilterStep(prefix, addon, NotTested);
    FilterStep(prefix, addon, Incompatible);
  }

  /** The `_.forEach` that pushes each shown add-on onto `goodAddons`,
      `untestedAddons` or `badAddons`. */
  method Partition(addons: seq<Addon>) returns (good: seq<Addon>, untested: seq<Addon>, bad: seq<Addon>)
    ensures good == Filter(addons, ShownWith(Compatible))
    ensures untested == Filter(addons, ShownWith(NotTested))
    ensures bad == Filter(addons, ShownWith(Incompatible))
  {
    good, untested, bad := [], [], [];
    for i := 0 to |addons|
      invariant Partitioned(addons[..i], good, untested, bad)
    {
      var addon := addons[i];
      assert addons[..i + 1] == addons[..i] + [addon];
      PartitionStep(addons[..i], addon, addons[..i + 1], good, untested, bad);
      if Greater(addon.tier, 2.0) && addon.compatible == NotTested {
        continue;
      }
      if addon.compatible == Compatible {
        good := good + [addon];
      } else if addon.compatible == NotTested {
        untested := untested + [addon];
      } else {
        bad := bad + [addon];
      }
    }
    assert addons[..|addons|] == addons;
  }

  /** The three lists hold, between them, every shown add-on exactly as
      often as the input does, and nothing else. */
  lemma PartitionCovers(addons: seq<Addon>)
    ensures multiset(Filter(addons, ShownWith(Compatible))) + multiset(Filter(addons, ShownWith(NotTested))) +
            multiset(Filter(addons, ShownWith(Incompatible))) == multiset(Filter(addons, Shown))
  {
    var good, untested, bad := Filter(addons, ShownWith(Compatible)), Filter(addons, ShownWith(NotTested)),
                               Filter(addons, ShownWith(Incompatible));
    forall x
      ensures (multiset(good) + multiset(untested) + multiset(bad))[x] == multiset(Filter(addons, Shown))[x]
    {
      FilterCount(addons, ShownWith(Compatible), x);
      FilterCount(addons, ShownWith(NotTested), x);
      FilterCount(addons, ShownWith(Incompatible), x);
      FilterCount(addons, Shown, x);
    }
  }

  /** An untested add-on of tier above 2 is in no list; an untested add-on
      whose tier is not above 2 is in the untested list. */
  lemma TierFilter(addons: seq<Addon>, a: Addon)
    requires a in addons && a.compatible == NotTested
    ensures Greater(a.tier, 2.0) ==>
              a !in Filter(addons, ShownWith(Compatible)) && a !in Filter(addons, ShownWith(NotTested)) &&
              a !in Filter(addons, ShownWith(Incompatible))
    ensures !Greater(a.tier, 2.0) ==> a in Filter(addons, ShownWith(NotTested))
  {
    FilterCount(addons, ShownWith(NotTested), a);
  }

  // ---------------------------------------------------------------------
  // `sortByName`

  /** The comparator `a.name < b.name ? -1 : (a.name === b.name ? 0 : 1)`;
      `<` with an undefined operand is false. */
  function Compare(a: Addon, b: Addon): (r: int)
    ensures r == -1 || r == 0 || r == 1
    ensures r == 0 <==> a.name == b.name
    ensures a.name.Some? && b.name.Some? ==> (r < 0 <==> Less(a.name.value, b.name.value))
  {
    if a.name.Some? && b.name.Some? && Less(a.name.value, b.name.value) then
      LessIrreflexive(a.name.value);
      -1
    else if a.name == b.name then 0
    else 1
  }

  /** For defined names the comparator is antisymmetric; an undefined name
      and a defined one each compare as greater than the other, so the
      comparator gives no consistent order for them. */
  lemma CompareSymmetry(a: Addon, b: Addon)
    ensures a.name.Some? && b.name.Some? ==> Compare(a, b) == -Compare(b, a)
    ensures a.name.None? && b.name.Some? ==> Compare(a, b) == 1 && Compare(b, a) == 1
  {
    if a.name.Some? && b.name.Some? {
      LessTotal(a.name.value, b.name.value);
      LessIrreflexive(a.name.value);
      if Less(a.name.value, b.name.value) && Less(b.name.value, a.name.value) {
        LessTransitive(a.name.value, b.name.value, a.name.value);
      }
    }
  }

  /** The order the sort establishes: names in string order, an undefined
      name after every defined one. */
  predicate NameLeq(a: Option<string>, b: Option<string>) {
    if a.None? then b.None? else b.None? || !Less(b.value, a.value)
  }

  predicate SortedByName(s: seq<Addon>) {
    forall k, l :: 0 <= k < l < |s| ==> NameLeq(s[k].name, s[l].name)
  }

  /** For defined names the order is exactly the comparator's: `a` may come
      before `b` when the comparator does not put `b` first. */
  lemma CompareAgrees(a: Addon, b: Addon)
    requires a.name.Some? && b.name.Some?
    ensures NameLeq(a.name, b.name) <==> Compare(b, a) >= 0
    ensures NameLeq(a.name, b.name) <==> Compare(a, b) <= 0
  {
    LessTotal(a.name.value, b.name.value);
    if Less(a.name.value, b.name.value) && Less(b.name.value, a.name.value) {
      LessTransitive(a.name.value, b.name.value, a.name.value);
      LessIrreflexive(a.name.value);
    }
    LessIrreflexive(a.name.value);
  }

  lemma NameLeqTotal(a: Option<string>, b: Option<string>)
    ensures NameLeq(a, b) || NameLeq(b, a)
  {
    if a.Some? && b.Some? {
      LessTotal(a.value, b.value);
      if Less(a.value, b.value) && Less(b.value, a.value) {
        LessTransitive(a.value, b.value, a.value);
        LessIrreflexive(a.value);
      }
    }
  }

  lemma NameLeqTransitive(a: Option<string>, b: Option<string>, c: Option<string>)
    requires NameLeq(a, b) && NameLeq(b, c)
    ensures NameLeq(a, c)
  {
    if a.Some? && b.Some? && c.Some? {
      LessTotal(c.value, b.value);
      if Less(c.value, a.value) {
        if c.value == b.value {
        } else {
          LessTransitive(b.value, c.value, a.value);
        }
      }
    }
  }

  /** Swapping two elements keeps the multiset. */
  lemma SwapKeepsMultiset<T>(s: seq<T>, i: nat, j: nat)
    requires i < |s| && j < |s|
    ensures multiset(s[i := s[j]][j := s[i]]) == multiset(s)
  {
  }

  /** While `s[j]` moves down through `s[..i + 1]`: the other elements are
      in order, and `s[j]` is no greater than anything above it. */
  predicate Inserting(s: seq<Addon>, j: nat, i: nat)
    requires j <= i < |s|
  {
    (forall k, l :: 0 <= k < l <= i && k != j && l != j ==> NameLeq(s[k].name, s[l].name)) &&
    (forall l :: j < l <= i ==> NameLeq(s[j].name, s[l].name))
  }

  lemma InsertStart(s: seq<Addon>, i: nat)
    requires i < |s| && SortedByName(s[..i])
    ensures Inserting(s, i, i)
  {
    forall k, l | 0 <= k < l < i
      ensures NameLeq(s[k].name, s[l].name)
    {
      assert s[k] == s[..i][k] && s[l] == s[..i][l];
    }
  }

  /** Swapping `s[j]` with a greater `s[j - 1]` moves the insertion one place down. */
  lemma InsertSwap(s: seq<Addon>, j: nat, i: nat)
    requires 0 < j <= i < |s| && Inserting(s, j, i) && !NameLeq(s[j - 1].name, s[j].name)
    ensures Inserting(SwapAt(s, j - 1, j), j - 1, i)
  {
    NameLeqTotal(s[j - 1].name, s[j].name);
  }

  /** The insertion stops at the bottom or below a name that is no greater. */
  lemma InsertDone(s: seq<Addon>, j: nat, i: nat)
    requires j <= i < |s| && Inserting(s, j, i)
    requires j == 0 || NameLeq(s[j - 1].name, s[j].name)
    ensures SortedByName(s[..i + 1])
  {
    forall k | 0 <= k < j
      ensures NameLeq(s[k].name, s[j].name)
    {
      if k < j - 1 {
        NameLeqTransitive(s[k].name, s[j - 1].name, s[j].name);
      }
    }
  }

  /** Moves `a[i]` down past every greater name, so that `a[..i + 1]` is sorted. */
  method Insert(a: array<Addon>, i: nat)
    requires i < a.Length && SortedByName(a[..i])
    modifies a
    ensures SortedByName(a[..i + 1])
    ensures multiset(a[..]) == multiset(old(a[..]))
  {
    InsertStart(a[..], i);
    var j := i;
    while j > 0 && !NameLeq(a[j - 1].name, a[j].name)
      invariant 0 <= j <= i
      invariant Inserting(a[..], j, i)
      invariant multiset(a[..]) == multiset(old(a[..]))
    {
      ghost var before := a[..];
      InsertSwap(before, j, i);
      a[j - 1], a[j] := a[j], a[j - 1];
      assert a[..] == SwapAt(before, j - 1, j);
      j := j - 1;
    }
    InsertDone(a[..], j, i);
  }

  /** `sortByName(array)`: sorts the array in place (by insertion). */
  method SortByName(a: array<Addon>)
    modifies a
    ensures SortedByName(a[..])
    ensures multiset(a[..]) == multiset(old(a[..]))
  {
    for i := 0 to a.Length
      invariant SortedByName(a[..i])
      invariant multiset(a[..]) == multiset(old(a[..]))
    {
      Insert(a, i);
    }
    assert a[..a.Length] == a[..];
  }

  // ---------------------------------------------------------------------
  // `shuffleArray`

  /** Swaps positions `i` and `j`. */
  function SwapAt<T>(s: seq<T>, i: nat, j: nat): (r: seq<T>)
    requires i < |s| && j < |s|
    ensures |r| == |s|
  {
    s[i := s[j]][j := s[i]]
  }

  /** The picks a shuffle may make: `j` at step `i` lies in 0..i. */
  ghost predicate Picks(pick: nat -> nat) {
    forall i: nat :: pick(i) <= i
  }

  /** The Fisher-Yates steps for `i` down to 1, starting from `s`. */
  function ShuffleFrom<T>(s: seq<T>, pick: nat -> nat, i: nat): (r: seq<T>)
    requires Picks(pick) && i < |s|
    ensures |r| == |s|
    decreases i
  {
    if i == 0 then s else ShuffleFrom(SwapAt(s, i, pick(i)), pick, i - 1)
  }

  /** The order `shuffleArray` leaves the array in, with `pick(i)` standing
      for `Math.floor(Math.random() * (i + 1))`. */
  function Shuffled<T>(s: seq<T>, pick: nat -> nat): seq<T>
    requires Picks(pick)
  {
    if |s| == 0 then s else ShuffleFrom(s, pick, |s| - 1)
  }

  lemma {:induction false} ShuffleFromIsPermutation<T>(s: seq<T>, pick: nat -> nat, i: nat)
    requires Picks(pick) && i < |s|
    ensures multiset(ShuffleFrom(s, pick, i)) == multiset(s)
    decreases i
  {
    if i > 0 {
      SwapKeepsMultiset(s, i, pick(i));
      ShuffleFromIsPermutation(SwapAt(s, i, pick(i)), pick, i - 1);
    }
  }

  /** A shuffle is a permutation. */
  lemma ShuffledIsPermutation<T>(s: seq<T>, pick: nat -> nat)
    requires Picks(pick)
    ensures |Shuffled(s, pick)| == |s| && multiset(Shuffled(s, pick)) == multiset(s)
  {
    if |s| > 0 {
      ShuffleFromIsPermutation(s, pick, |s| - 1);
    }
  }

  /** With every pick equal to its own step, nothing moves; and the last
      position holds the element `pick(|s| - 1)` chose. */
  lemma {:induction false} ShuffleSteps<T>(s: seq<T>, pick: nat -> nat, i: nat)
    requires Picks(pick) && i < |s|
    ensures (forall k: nat :: k <= i ==> pick(k) == k) ==> ShuffleFrom(s, pick, i) == s
    ensures i > 0 ==> ShuffleFrom(s, pick, i)[i] == s[pick(i)]
    decreases i
  {
    if i > 0 {
      var t := SwapAt(s, i, pick(i));
      ShuffleSteps(t, pick, i - 1);
      ShuffleKeepsAbove(t, pick, i - 1, i);
      if forall k: nat :: k <= i ==> pick(k) == k {
        assert t == s;
      }
    }
  }

  /** Steps below `i` never move position `p > i`. */
  lemma {:induction false} ShuffleKeepsAbove<T>(s: seq<T>, pick: nat -> nat, i: nat, p: nat)
    requires Picks(pick) && i < p < |s|
    ensures ShuffleFrom(s, pick, i)[p] == s[p]
    decreases i
  {
    if i > 0 {
      ShuffleKeepsAbove(SwapAt(s, i, pick(i)), pick, i - 1, p);
    }
  }

  /** `shuffleArray(array)`: Fisher-Yates in place. */
  method Shuffle<T>(a: array<T>, pick: nat -> nat)
    requires Picks(pick)
    modifies a
    ensures a[..] == Shuffled(old(a[..]), pick)
  {
    if a.Length == 0 {
      return;
    }
    var i := a.Length - 1;
    while i > 0
      invariant 0 <= i < a.Length
      invariant ShuffleFrom(a[..], pick, i) == Shuffled(old(a[..]), pick)
    {
      var j := pick(i);
      ghost var before := a[..];
      assert ShuffleFrom(before, pick, i) == ShuffleFrom(SwapAt(before, i, j), pick, i - 1);
      var temp := a[i];
      a[i] := a[j];
      a[j] := temp;
      assert a[..] == SwapAt(before, i, j);
      i := i - 1;
    }
    assert ShuffleFrom(a[..], pick, 0) == a[..];
  }

  // ---------------------------------------------------------------------
  // `appendAddonRows` and `createBugElement`

  /** The status column's text and the row's Bootstrap class. */
  datatype Status = Status(text: string, style: string)

  function StatusOf(c: Compat): (s: Status)
    ensures c == Compatible ==> s == Status("compatible", "success")
    ensures c == NotTested ==> s == Status("not tested", "warning")
    ensures c == Incompatible ==> s == Status("bug reported", "danger")
  {
    match c
    case Compatible => Status("compatible", "success")
    case NotTested => Status("not tested", "warning")
    case Incompatible => Status("bug reported", "danger")
  }

  /** The three states look different, in text and in colour. */
  lemma StatusDistinguishes(c: Compat, d: Compat)
    ensures StatusOf(c).text == StatusOf(d).text <==> c == d
    ensures StatusOf(c).style == StatusOf(d).style <==> c == d
  {
  }

  const ReportPrefix: string := "https://bugzilla.mozilla.org/enter_bug.cgi?format=__default__&product=Firefox&component=Extension%20Compatibility&blocked=905436&keywords=addon-compat&short_desc=\""
  const ReportSuffix: string := "\"%20add-on%20does%20not%20work%20with%20e10s&cc=cpeterson@mozilla.com&"

  /** The pre-filled Bugzilla form for an add-on without a bug. */
  function ReportURL(name: Option<string>): string {
    ReportPrefix + Text(name) + ReportSuffix
  }

  /** The mail saying the add-on works; `agent` is the URI-encoded user agent. */
  function WorksURL(name: Option<string>, agent: string): string {
    "mailto:cpeterson@mozilla.com?subject=\"" + Text(name) + "\" add-on works with e10s!&body=Add-on:%0A" +
    Text(name) + "%0A%0AUser-Agent:%0A" + agent
  }

  /** The bug column: a link "bug N" (struck through when compatible), the
      text "no bug", or the "Report bug" / "it works" links. */
  datatype BugCell = BugLink(url: Option<string>, bug: Number, struck: bool) | NoBug | Report(reportURL: string, worksURL: string)

  function BugCellOf(a: Addon, agent: string): (c: BugCell)
    ensures c.BugLink? ==> c.url == a.bugURL && Some(c.bug) == a.bug
    ensures c.Report? ==> c.reportURL == ReportURL(a.name) && c.worksURL == WorksURL(a.name, agent)
  {
    if a.bug.Some? && Truthy(a.bug.value) then BugLink(a.bugURL, a.bug.value, a.compatible == Compatible)
    else if a.bug == Some(Num(0.0)) then NoBug
    else Report(ReportURL(a.name), WorksURL(a.name, agent))
  }

  /** Which of the three cells an add-on gets, decided by its bug alone. */
  lemma BugCellCases(a: Addon, agent: string)
    ensures BugCellOf(a, agent).BugLink? <==> Mapped(a)
    ensures BugCellOf(a, agent).NoBug? <==> a.bug == Some(Num(0.0))
    ensures BugCellOf(a, agent).Report? <==> a.bug.None? || a.bug == Some(NaN)
    ensures BugCellOf(a, agent).BugLink? ==> (BugCellOf(a, agent).struck <==> a.compatible == Compatible)
  {
  }

  /** A row read from the spreadsheet whose bug is 0 is shown as
      "compatible" with "no bug", whatever the search returns: 0 is neither
      looked up nor mapped, so no resolution reaches it. */
  lemma ZeroBugIsCompatible(rows: seq<GData.Row>, i: nat, lib: Library, response: BugSearch, agent: string)
    requires i < |rows|
    requires Lookup(rows[i], "bug").Some? && lib.toNumber(Lookup(rows[i], "bug").value) == Num(0.0)
    requires CallbackOf(AddonsOf(rows, lib), response).Some?
    ensures var shown := CallbackOf(AddonsOf(rows, lib), response).value.addons;
            i < |shown| && shown[i].compatible == Compatible && BugCellOf(shown[i], agent) == NoBug &&
            StatusOf(shown[i].compatible).text == "compatible"
  {
    var addons := AddonsOf(rows, lib);
    CallbackKeepsAddons(rows, lib, response);
    if response.Bugs? {
      var index := BugToAddon(addons);
      forall n | 0 <= n < |response.bugs| && response.bugs[n].id in index
        ensures index[response.bugs[n].id] != i
      {
        BugMapEntries(addons, response.bugs[n].id);
      }
      AppliedUntouched(addons, index, response.bugs, i);
    }
  }

  /** One `<tr>`: its class, the link to the add-on's page with the decoded
      name, the status text and the bug cell. */
  datatype TableRow = TableRow(style: string, amoURL: string, name: string, status: string, bug: BugCell)

  /** The row of one add-on. `decode` stands for `decodeURIComponent`, which
      is given the name (an undefined name as the text "undefined"); `None`
      is its exception. */
  function TableRowOf(a: Addon, agent: string, decode: string -> Option<string>): (r: Option<TableRow>)
    ensures r.Some? <==> decode(Text(a.name)).Some?
    ensures r.Some? ==> r.value.name == decode(Text(a.name)).value && r.value.amoURL == a.amoURL
    ensures r.Some? ==> r.value.style == StatusOf(a.compatible).style && r.value.status == StatusOf(a.compatible).text
    ensures r.Some? ==> r.value.bug == BugCellOf(a, agent)
  {
    var name := decode(Text(a.name));
    if name.None? then None
    else
      var s := StatusOf(a.compatible);
      Some(TableRow(s.style, a.amoURL, name.value, s.text, BugCellOf(a, agent)))
  }

  /** Every name of the list is accepted by `decodeURIComponent`. */
  predicate NamesDecode(addons: seq<Addon>, decode: string -> Option<string>) {
    forall i :: 0 <= i < |addons| ==> decode(Text(addons[i].name)).Some?
  }

  /** `appendAddonRows(tbody, addons)`: the rows the loop builds in the
      fragment, one per add-on in order; `None` when a name throws, in which
      case the fragment is never appended. */
  function TableRows(addons: seq<Addon>, agent: string, decode: string -> Option<string>): (rows: Option<seq<TableRow>>)
    ensures rows.Some? <==> NamesDecode(addons, decode)
    ensures rows.Some? ==> |rows.value| == |addons|
    ensures rows.Some? ==> forall i :: 0 <= i < |addons| ==> TableRowOf(addons[i], agent, decode) == Some(rows.value[i])
  {
    if |addons| == 0 then Some([])
    else
      var init := addons[..|addons| - 1];
      assert forall i :: 0 <= i < |init| ==> init[i] == addons[i];
      var r := TableRows(init, agent, decode);
      var last := TableRowOf(addons[|addons| - 1], agent, decode);
      if r.None? || last.None? then None else Some(r.value + [last.value])
  }

  /** `appendAddonRows(tbody, addons)`: the loop builds one row per add-on
      in a fragment, which is appended to `tbody` once the loop is done. A
      name that does not decode throws, and `tbody` is left as it was. */
  method AppendAddonRows(tbody: seq<TableRow>, addons: seq<Addon>, agent: string, decode: string -> Option<string>)
    returns (body: seq<TableRow>, ok: bool)
    ensures ok <==> NamesDecode(addons, decode)
    ensures ok ==> body == tbody + TableRows(addons, agent, decode).value
    ensures !ok ==> body == tbody
  {
    var fragment := [];
    var i := 0;
    while i < |addons|
      invariant 0 <= i <= |addons|
      invariant TableRows(addons[..i], agent, decode) == Some(fragment)
    {
      var tr := TableRowOf(addons[i], agent, decode);
      if tr.None? {
        return tbody, false;
      }
      assert addons[..i + 1][..i] == addons[..i];
      fragment := fragment + [tr.value];
      i := i + 1;
    }
    assert addons[..i] == addons;
    return tbody + fragment, true;
  }

  // ---------------------------------------------------------------------
  // The `parseSpreadsheet` callback

  /** Copies a list into a fresh array, as the sort and the shuffle work on arrays. */
  method ToArray(s: seq<Addon>) returns (a: array<Addon>)
    ensures fresh(a) && a[..] == s
  {
    a := new Addon[|s|](i requires 0 <= i < |s| => s[i]);
  }

  /** The callback of `$addons.parseSpreadsheet` in `onSpreadsheet`: its
      `error` argument is not consulted. Returns the three lists as
      displayed, the rows appended to the table body (`agent` stands for the
      encoded `navigator.userAgent`) and whether the callback ran to its
      end. The lists' rows are appended in order; the first list holding a
      name that does not decode throws, so that list and the later ones
      show nothing. */
  method OnAddons(addons: seq<Addon>, pick: nat -> nat, agent: string, decode: string -> Option<string>)
    returns (good: seq<Addon>, untested: seq<Addon>, bad: seq<Addon>, rows: seq<TableRow>, done: bool)
    requires Picks(pick)
    ensures SortedByName(good) && multiset(good) == multiset(Filter(addons, ShownWith(Compatible)))
    ensures untested == Shuffled(Filter(addons, ShownWith(NotTested)), pick)
    ensures SortedByName(bad) && multiset(bad) == multiset(Filter(addons, ShownWith(Incompatible)))
    ensures done <==> NamesDecode(good, decode) && NamesDecode(untested, decode) && NamesDecode(bad, decode)
    ensures !NamesDecode(good, decode) ==> rows == []
    ensures NamesDecode(good, decode) && !NamesDecode(untested, decode) ==> rows == TableRows(good, agent, decode).value
    ensures NamesDecode(good, decode) && NamesDecode(untested, decode) && !NamesDecode(bad, decode) ==>
              rows == TableRows(good, agent, decode).value + TableRows(untested, agent, decode).value
    ensures done ==>
              rows == TableRows(good, agent, decode).value + TableRows(untested, agent, decode).value + TableRows(bad, agent, decode).value
  {
    var g, u, b := Partition(addons);
    var ga := ToArray(g);
    SortByName(ga);
    var ua := ToArray(u);
    Shuffle(ua, pick);
    var ba := ToArray(b);
    SortByName(ba);
    good, untested, bad := ga[..], ua[..], ba[..];
    rows, done := AppendLists(good, untested, bad, agent, decode);
  }

  /** The three `appendAddonRows` calls on an empty table body: the rows of
      the lists before the first one that throws, and whether none threw. */
  method AppendLists(good: seq<Addon>, untested: seq<Addon>, bad: seq<Addon>, agent: string, decode: string -> Option<string>)
    returns (rows: seq<TableRow>, done: bool)
    ensures done <==> NamesDecode(good, decode) && NamesDecode(untested, decode) && NamesDecode(bad, decode)
    ensures !NamesDecode(good, decode) ==> rows == []
    ensures NamesDecode(good, decode) && !NamesDecode(untested, decode) ==> rows == TableRows(good, agent, decode).value
    ensures NamesDecode(good, decode) && NamesDecode(untested, decode) && !NamesDecode(bad, decode) ==>
              rows == TableRows(good, agent, decode).value + TableRows(untested, agent, decode).value
    ensures done ==>
              rows == TableRows(good, agent, decode).value + TableRows(untested, agent, decode).value + TableRows(bad, agent, decode).value
  {
    var g, okGood := AppendAddonRows([], good, agent, decode);
    if !okGood {
      return g, false;
    }
    assert g == TableRows(good, agent, decode).value;
    var gu, okUntested := AppendAddonRows(g, untested, agent, decode);
    if !okUntested {
      return gu, false;
    }
    rows, done := AppendAddonRows(gu, bad, agent, decode);
  }

  /** A list with the multiset of one of the partition's filters holds only
      shown add-ons of that compatibility. */
  lemma ListHolds(addons: seq<Addon>, c: Compat, s: seq<Addon>)
    requires multiset(s) == multiset(Filter(addons, ShownWith(c)))
    ensures forall i :: 0 <= i < |s| ==> s[i].compatible == c && Shown(s[i])
  {
    forall i | 0 <= i < |s|
      ensures s[i].compatible == c && Shown(s[i])
    {
      assert s[i] in multiset(s);
      ShownWithIs(c, s[i]);
    }
  }

  /** The rows of a list of add-ons of one compatibility all carry its class. */
  lemma RowsStyled(s: seq<Addon>, c: Compat, agent: string, decode: string -> Option<string>)
    requires forall i :: 0 <= i < |s| ==> s[i].compatible == c
    requires NamesDecode(s, decode)
    ensures forall i :: 0 <= i < |s| ==> TableRows(s, agent, decode).value[i].style == StatusOf(c).style
  {
    var rows := TableRows(s, agent, decode).value;
    forall i | 0 <= i < |s|
      ensures rows[i].style == StatusOf(c).style
    {
      assert TableRowOf(s[i], agent, decode) == Some(rows[i]);
    }
  }

  /** Whether every name decodes does not depend on the order of the list. */
  lemma NamesDecodeSame(s: seq<Addon>, t: seq<Addon>, decode: string -> Option<string>)
    requires multiset(s) == multiset(t) && NamesDecode(t, decode)
    ensures NamesDecode(s, decode)
  {
    forall i | 0 <= i < |s|
      ensures decode(Text(s[i].name)).Some?
    {
      assert s[i] in multiset(t);
      var j :| 0 <= j < |t| && t[j] == s[i];
    }
  }

  lemma NamesDecodeAppend(s: seq<Addon>, t: seq<Addon>, decode: string -> Option<string>)
    ensures NamesDecode(s + t, decode) <==> NamesDecode(s, decode) && NamesDecode(t, decode)
  {
    if NamesDecode(s + t, decode) {
      forall i | 0 <= i < |s|
        ensures decode(Text(s[i].name)).Some?
      {
        assert (s + t)[i] == s[i];
      }
      forall i | 0 <= i < |t|
        ensures decode(Text(t[i].name)).Some?
      {
        assert (s + t)[|s| + i] == t[i];
      }
    }
  }

  /** The three lists hold every shown add-on once per occurrence, and no
      other; so the table is complete exactly when every shown add-on's
      name decodes. */
  lemma TableContents(good: seq<Addon>, untested: seq<Addon>, bad: seq<Addon>, addons: seq<Addon>, pick: nat -> nat,
                      decode: string -> Option<string>)
    requires Picks(pick)
    requires multiset(good) == multiset(Filter(addons, ShownWith(Compatible)))
    requires untested == Shuffled(Filter(addons, ShownWith(NotTested)), pick)
    requires multiset(bad) == multiset(Filter(addons, ShownWith(Incompatible)))
    ensures multiset(good + untested + bad) == multiset(Filter(addons, Shown))
    ensures |good + untested + bad| == |Filter(addons, Shown)|
    ensures NamesDecode(good, decode) && NamesDecode(untested, decode) && NamesDecode(bad, decode) <==>
            NamesDecode(Filter(addons, Shown), decode)
  {
    PartitionCovers(addons);
    ShuffledIsPermutation(Filter(addons, ShownWith(NotTested)), pick);
    var all := good + untested + bad;
    assert multiset(all) == multiset(good) + multiset(untested) + multiset(bad);
    assert |all| == |multiset(all)|;
    assert |Filter(addons, Shown)| == |multiset(Filter(addons, Shown))|;
    NamesDecodeAppend(good, untested, decode);
    NamesDecodeAppend(good + untested, bad, decode);
    if NamesDecode(all, decode) {
      NamesDecodeSame(Filter(addons, Shown), all, decode);
    }
    if NamesDecode(Filter(addons, Shown), decode) {
      NamesDecodeSame(all, Filter(addons, Shown), decode);
    }
  }

  /** In a complete table the compatible rows come first, then the
      untested, then the incompatible ones, each with its own class. */
  lemma TableStyles(good: seq<Addon>, untested: seq<Addon>, bad: seq<Addon>, agent: string, decode: string -> Option<string>)
    requires forall i :: 0 <= i < |good| ==> good[i].compatible == Compatible
    requires forall i :: 0 <= i < |untested| ==> untested[i].compatible == NotTested
    requires forall i :: 0 <= i < |bad| ==> bad[i].compatible == Incompatible
    requires NamesDecode(good, decode) && NamesDecode(untested, decode) && NamesDecode(bad, decode)
    ensures var rows := TableRows(good, agent, decode).value + TableRows(untested, agent, decode).value +
                        TableRows(bad, agent, decode).value;
            (forall i :: 0 <= i < |good| ==> rows[i].style == "success") &&
            (forall i :: |good| <= i < |good| + |untested| ==> rows[i].style == "warning") &&
            (forall i :: |good| + |untested| <= i < |rows| ==> rows[i].style == "danger")
  {
    RowsStyled(good, Compatible, agent, decode);
    RowsStyled(untested, NotTested, agent, decode);
    RowsStyled(bad, Incompatible, agent, decode);
    StylesInOrder(TableRows(good, agent, decode).value, TableRows(untested, agent, decode).value,
                  TableRows(bad, agent, decode).value, "success", "warning", "danger");
  }

  lemma StylesInOrder(g: seq<TableRow>, u: seq<TableRow>, b: seq<TableRow>, sg: string, su: string, sb: string)
    requires forall i :: 0 <= i < |g| ==> g[i].style == sg
    requires forall i :: 0 <= i < |u| ==> u[i].style == su
    requires forall i :: 0 <= i < |b| ==> b[i].style == sb
    ensures var rows := g + u + b;
            (forall i :: 0 <= i < |g| ==> rows[i].style == sg) &&
            (forall i :: |g| <= i < |g| + |u| ==> rows[i].style == su) &&
            (forall i :: |g| + |u| <= i < |rows| ==> rows[i].style == sb)
  {
    var rows := g + u + b;
    forall i | 0 <= i < |g|
      ensures rows[i].style == sg
    {
      assert rows[i] == g[i];
    }
    forall i | |g| <= i < |g| + |u|
      ensures rows[i].style == su
    {
      assert rows[i] == u[i - |g|];
    }
    forall i | |g| + |u| <= i < |rows|
      ensures rows[i].style == sb
    {
      assert rows[i] == b[i - |g| - |u|];
    }
  }

  /** The lists `OnAddons` displays satisfy what `TableStyles` needs. */
  lemma DisplayedLists(good: seq<Addon>, untested: seq<Addon>, bad: seq<Addon>, addons: seq<Addon>, pick: nat -> nat)
    requires Picks(pick)
    requires multiset(good) == multiset(Filter(addons, ShownWith(Compatible)))
    requires untested == Shuffled(Filter(addons, ShownWith(NotTested)), pick)
    requires multiset(bad) == multiset(Filter(addons, ShownWith(Incompatible)))
    ensures forall i :: 0 <= i < |good| ==> good[i].compatible == Compatible && Shown(good[i])
    ensures forall i :: 0 <= i < |untested| ==> untested[i].compatible == NotTested && Shown(untested[i])
    ensures forall i :: 0 <= i < |bad| ==> bad[i].compatible == Incompatible && Shown(bad[i])
  {
    ShuffledIsPermutation(Filter(addons, ShownWith(NotTested)), pick);
    ListHolds(addons, Compatible, good);
    ListHolds(addons, NotTested, untested);
    ListHolds(addons, Incompatible, bad);
  }
}
