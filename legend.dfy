/**
 * The organism legend (src/OrganismLegend.js): hues are sorted into ten
 * named colour groups, organisms are counted per group with their energy
 * summed, the five largest groups are listed (the first is the "buddy of
 * the day") with their rounded average energy, and each group shows one of
 * its descriptions in rotation.
 */
module Legend {
  import opened Wrappers

  datatype ColorName = ColorName(name: string, color: string, descs: seq<string>, funFact: string)

  const COLOR_NAMES: seq<ColorName> := [
    ColorName("Ruby Roamer", "#e74c3c",
      ["Bold and adventurous!", "Never afraid of a challenge.", "Leads the charge into new territory."],
      "Ruby Roamers are known for their fiery tempers!"),
    ColorName("Sunny Blob", "#f1c40f",
      ["Brings sunshine wherever it goes.", "Always the optimist!", "Spreads cheer on the grid."],
      "Sunny Blobs love to gather in groups for warmth."),
    ColorName("Minty Muncher", "#2ecc71",
      ["Loves to snack on food.", "Always munching!", "Rarely seen without a bite to eat."],
      "Minty Munchers can detect food from far away."),
    ColorName("Azure Explorer", "#3498db",
      ["Always on the move.", "Seeks out new adventures.", "Never stays in one place for long."],
      "Azure Explorers have mapped more of the grid than any other."),
    ColorName("Violet Dreamer", "#9b59b6",
      ["Quiet, but full of surprises.", "Often lost in thought.", "Dreams of a better world."],
      "Violet Dreamers sometimes move in their sleep!"),
    ColorName("Pumpkin Prowler", "#e67e22",
      ["Sneaky and quick!", "Loves a good chase.", "Masters of disguise."],
      "Pumpkin Prowlers are rarely caught by predators."),
    ColorName("Rose Wanderer", "#e84393",
      ["Gentle and curious.", "Wanders with purpose.", "Finds beauty everywhere."],
      "Rose Wanderers are the best at making friends."),
    ColorName("Lime Sprinter", "#00b894",
      ["Fastest on the grid!", "Leaves others in the dust.", "Always in a hurry."],
      "Lime Sprinters can cross the grid in record time."),
    ColorName("Sky Hopper", "#00cec9",
      ["Jumps from spot to spot.", "Never walks when they can hop.", "Loves heights!"],
      "Sky Hoppers can leap over obstacles with ease."),
    ColorName("Sandstone Shuffler", "#fdcb6e",
      ["Blends in with the crowd.", "Moves with a steady rhythm.", "Always calm and collected."],
      "Sandstone Shufflers are masters of camouflage.")
  ]

  /**
   * JavaScript's `a % b` for b > 0: the remainder has the sign of `a` and
   * differs from `a` by a multiple of `b`, so it is `a - b * trunc(a / b)`.
   */
  function JsRem(a: int, b: int): (r: int)
    requires b > 0
    ensures -b < r < b
    ensures a >= 0 ==> r == a % b
    ensures a < 0 ==> r <= 0
    ensures (a - r) % b == 0
  {
    if a >= 0 then
      ModUnique(a - a % b, b, a / b, 0);
      a % b
    else
      var q := (-a) / b;
      ModUnique(a + (-a) % b, b, -q, 0);
      -((-a) % b)
  }

  /** `Math.round(num / den)` for den > 0: the nearest integer, halves rounding up. */
  function RoundDiv(num: int, den: int): (r: int)
    requires den > 0
    ensures 2 * den * r - den <= 2 * num < 2 * den * r + den
  {
    var q := (2 * num + den) / (2 * den);
    assert 2 * den * q <= 2 * num + den < 2 * den * q + 2 * den by {
      var m := 2 * num + den;
      assert m == (2 * den) * (m / (2 * den)) + m % (2 * den);
    }
    q
  }

  /** The hue lies within half a group's width (18 degrees) of group `idx`'s centre, 36 * idx, on the circle. */
  ghost predicate NearestCentre(h: int, idx: int) {
    (36 * idx - 18 <= h < 36 * idx + 18) || (idx == 0 && 342 <= h < 360)
  }

  /**
   * The index `getColorGroup` computes: `Math.round((hue % 360) / 36) % 10`.
   * For a non-negative hue it is the group whose centre is nearest the hue
   * modulo 360; a negative hue can give a negative index, which names no entry.
   */
  function ColorIndex(hue: int): (idx: int)
    ensures -|COLOR_NAMES| < idx < |COLOR_NAMES|
    ensures hue >= 0 ==> 0 <= idx < |COLOR_NAMES| && NearestCentre(hue % 360, idx)
  {
    var m := JsRem(hue, 360);
    var k := RoundDiv(m, 36);
    assert hue >= 0 ==> 0 <= k <= 10 && 36 * k - 18 <= m < 36 * k + 18;
    JsRem(k, |COLOR_NAMES|)
  }

  /** For a non-negative hue the index is `floor((hue mod 360 + 18) / 36) mod 10`. */
  lemma ColorIndexClosedForm(hue: int)
    requires hue >= 0
    ensures ColorIndex(hue) == ((hue % 360) + 18) / 36 % 10
  {
    var m := hue % 360;
    var k := RoundDiv(m, 36);
    assert 2 * m + 36 == 2 * (m + 18);
    assert k == (m + 18) / 36 by {
      assert 72 * k - 36 <= 2 * m < 72 * k + 36;
      assert 36 * k <= m + 18 < 36 * k + 36;
    }
  }

  /** Hues in [342, 360) round up to group 10, which wraps to group 0: hue 359 and hue 0 share a group. */
  lemma HueWrapsToFirstGroup(hue: int)
    requires hue >= 0 && 342 <= hue % 360
    ensures ColorIndex(hue) == 0
    ensures ColorIndex(hue) == ColorIndex(0)
  {
    ColorIndexClosedForm(hue);
    ColorIndexClosedForm(0);
  }

  /** The result of `getColorGroup`: the table entry (None when the index names none) and the index. */
  datatype ColorGroup = ColorGroup(entry: Option<ColorName>, idx: int)

  function GetColorGroup(hue: int): (g: ColorGroup)
    ensures g.idx == ColorIndex(hue)
    ensures hue >= 0 ==> g.entry == Some(COLOR_NAMES[g.idx])
    ensures g.entry.None? <==> g.idx < 0
  {
    var idx := ColorIndex(hue);
    ColorGroup(if idx >= 0 then Some(COLOR_NAMES[idx]) else None, idx)
  }

  /** `getRotatingDesc`: the description shown at `tick`; None (undefined) for an empty list. */
  function RotatingDesc(descs: seq<string>, tick: nat): (d: Option<string>)
    ensures d.Some? <==> |descs| > 0
    ensures d.Some? ==> d.value in descs
  {
    if |descs| == 0 then None else Some(descs[tick % |descs|])
  }

  lemma {:induction false} MulAtLeast(L: int, d: int)
    requires L > 0 && d >= 1
    ensures L * d >= L
    decreases d
  {
    if d > 1 {
      MulAtLeast(L, d - 1);
      assert L * d == L * (d - 1) + L;
    }
  }

  /** Euclidean remainders are unique: `x == L * q + r` with `0 <= r < L` fixes `x % L`. */
  lemma ModUnique(x: int, L: int, q: int, r: int)
    requires L > 0 && 0 <= r < L && x == L * q + r
    ensures x % L == r
  {
    var q' := x / L;
    var d := q - q';
    assert x == L * q' + x % L;
    assert L * q == L * q' + L * d;
    if d >= 1 {
      MulAtLeast(L, d);
    } else if d <= -1 {
      MulAtLeast(L, -d);
    }
  }

  /** The rotation repeats with period `|descs|`. */
  lemma {:induction false} RotatingDescPeriodic(descs: seq<string>, tick: nat, rounds: nat)
    ensures RotatingDesc(descs, tick + rounds * |descs|) == RotatingDesc(descs, tick)
  {
    if rounds > 0 && |descs| > 0 {
      var L := |descs|;
      var t := tick + (rounds - 1) * L;
      RotatingDescPeriodic(descs, tick, rounds - 1);
      assert tick + rounds * L == t + L;
      ModUnique(t + L, L, t / L + 1, t % L);
    }
  }

  /** What the legend reads of an organism: `traits?.colorHue` and `energy`, either possibly missing. */
  datatype LegendOrganism = LegendOrganism(colorHue: Option<int>, energy: Option<int>)

  /** Groups are keyed by name; an index outside the table gives the name `undefined`. */
  datatype GroupKey = Named(name: string) | Unnamed

  datatype Group = Group(key: GroupKey, info: ColorGroup, count: nat, sumEnergy: int)

  /** `Math.round(o.traits?.colorHue ?? 0)`; hues are integers here, so rounding keeps them. */
  function LegendHue(o: LegendOrganism): int {
    match o.colorHue
    case Some(h) => h
    case None => 0
  }

  /** `o.energy ?? 0`. */
  function EnergyOf(o: LegendOrganism): int {
    match o.energy
    case Some(e) => e
    case None => 0
  }

  function KeyOf(o: LegendOrganism): GroupKey {
    var g := GetColorGroup(LegendHue(o));
    if g.entry.Some? then Named(g.entry.value.name) else Unnamed
  }

  /** The position of the group with `key`, if there is one (the lookup `groups[group.name]`). */
  function IndexOfKey(gs: seq<Group>, key: GroupKey): (r: Option<nat>)
    ensures r.Some? ==> r.value < |gs| && gs[r.value].key == key
    ensures r.None? ==> forall i :: 0 <= i < |gs| ==> gs[i].key != key
  {
    if gs == [] then None
    else if gs[|gs| - 1].key == key then Some(|gs| - 1)
    else IndexOfKey(gs[..|gs| - 1], key)
  }

  /** One step of the `forEach`: create the organism's group on first sight, then count it. */
  function AddToGroups(gs: seq<Group>, o: LegendOrganism): seq<Group> {
    var key := KeyOf(o);
    match IndexOfKey(gs, key)
    case None => gs + [Group(key, GetColorGroup(LegendHue(o)), 1, EnergyOf(o))]
    case Some(i) => gs[i := gs[i].(count := gs[i].count + 1, sumEnergy := gs[i].sumEnergy + EnergyOf(o))]
  }

  /** `Object.values(groups)` after the `forEach`: groups in order of first appearance. */
  function GroupsOf(orgs: seq<LegendOrganism>): seq<Group> {
    if orgs == [] then [] else AddToGroups(GroupsOf(orgs[..|orgs| - 1]), orgs[|orgs| - 1])
  }

  /** How many organisms have `key`. */
  function CountWithKey(orgs: seq<LegendOrganism>, key: GroupKey): nat {
    if orgs == [] then 0
    else CountWithKey(orgs[..|orgs| - 1], key) + (if KeyOf(orgs[|orgs| - 1]) == key then 1 else 0)
  }

  /** The summed energy of the organisms with `key`, missing energies counting 0. */
  function SumWithKey(orgs: seq<LegendOrganism>, key: GroupKey): int {
    if orgs == [] then 0
    else SumWithKey(orgs[..|orgs| - 1], key) + (if KeyOf(orgs[|orgs| - 1]) == key then EnergyOf(orgs[|orgs| - 1]) else 0)
  }

  function TotalCount(gs: seq<Group>): nat {
    if gs == [] then 0 else TotalCount(gs[..|gs| - 1]) + gs[|gs| - 1].count
  }

  ghost predicate DistinctKeys(gs: seq<Group>) {
    forall i, j :: 0 <= i < j < |gs| ==> gs[i].key != gs[j].key
  }

  lemma {:induction false} TotalCountUpdate(gs: seq<Group>, i: nat, g: Group)
    requires i < |gs|
    ensures TotalCount(gs[i := g]) + gs[i].count == TotalCount(gs) + g.count
  {
    var last := |gs| - 1;
    if i < last {
      TotalCountUpdate(gs[..last], i, g);
      assert gs[i := g][..last] == gs[..last][i := g];
    } else {
      assert gs[i := g][..last] == gs[..last];
    }
  }

  /** Each group's key occurs once. */
  lemma {:induction false} GroupsDistinct(orgs: seq<LegendOrganism>)
    ensures DistinctKeys(GroupsOf(orgs))
  {
    if orgs != [] {
      var m := |orgs| - 1;
      GroupsDistinct(orgs[..m]);
      var gs0 := GroupsOf(orgs[..m]);
      var key := KeyOf(orgs[m]);
      var gs := GroupsOf(orgs);
      match IndexOfKey(gs0, key)
      case None =>
        assert forall j :: 0 <= j < |gs0| ==> gs[j] == gs0[j];
      case Some(i) =>
        assert forall j :: 0 <= j < |gs0| ==> gs[j].key == gs0[j].key;
    }
  }

  /** A key has a group after adding `o` exactly when it had one before or is `o`'s key. */
  lemma AddToGroupsKeys(gs: seq<Group>, o: LegendOrganism, k: GroupKey)
    ensures IndexOfKey(AddToGroups(gs, o), k).Some? <==> IndexOfKey(gs, k).Some? || k == KeyOf(o)
  {
    var r := AddToGroups(gs, o);
    var key := KeyOf(o);
    assert |r| >= |gs| && forall j :: 0 <= j < |gs| ==> r[j].key == gs[j].key;
    if IndexOfKey(gs, k).Some? {
      assert r[IndexOfKey(gs, k).value].key == k;
    } else if k == key {
      assert r[|r| - 1].key == key;
    } else {
      assert IndexOfKey(gs, key).None? ==> r == gs + [r[|gs|]];
    }
  }

  /** A group exists for exactly the keys some organism has. */
  lemma {:induction false} GroupsAbsent(orgs: seq<LegendOrganism>, k: GroupKey)
    ensures IndexOfKey(GroupsOf(orgs), k).None? <==> CountWithKey(orgs, k) == 0
  {
    if orgs != [] {
      var m := |orgs| - 1;
      GroupsAbsent(orgs[..m], k);
      AddToGroupsKeys(GroupsOf(orgs[..m]), orgs[m], k);
    }
  }

  /** Each group in `gs` counts the organisms of `orgs` with its key and sums their energy. */
  ghost predicate GroupsMatch(orgs: seq<LegendOrganism>, gs: seq<Group>) {
    forall i :: 0 <= i < |gs| ==>
      gs[i].count == CountWithKey(orgs, gs[i].key) && gs[i].count > 0 &&
      gs[i].sumEnergy == SumWithKey(orgs, gs[i].key)
  }

  lemma {:induction false} NoMembersNoEnergy(orgs: seq<LegendOrganism>, k: GroupKey)
    requires CountWithKey(orgs, k) == 0
    ensures SumWithKey(orgs, k) == 0
  {
    if orgs != [] {
      NoMembersNoEnergy(orgs[..|orgs| - 1], k);
    }
  }

  lemma GroupsMatchStep(prev: seq<LegendOrganism>, o: LegendOrganism, gs0: seq<Group>)
    requires GroupsMatch(prev, gs0) && DistinctKeys(gs0)
    requires IndexOfKey(gs0, KeyOf(o)).None? ==> CountWithKey(prev, KeyOf(o)) == 0
    ensures GroupsMatch(prev + [o], AddToGroups(gs0, o))
  {
    var orgs := prev + [o];
    assert orgs[..|prev|] == prev && orgs[|prev|] == o;
    var key := KeyOf(o);
    var gs := AddToGroups(gs0, o);
    forall j | 0 <= j < |gs|
      ensures gs[j].count == CountWithKey(orgs, gs[j].key) && gs[j].count > 0
      ensures gs[j].sumEnergy == SumWithKey(orgs, gs[j].key)
    {
      var k := gs[j].key;
      assert CountWithKey(orgs, k) == CountWithKey(prev, k) + (if key == k then 1 else 0);
      assert SumWithKey(orgs, k) == SumWithKey(prev, k) + (if key == k then EnergyOf(o) else 0);
      match IndexOfKey(gs0, key)
      case None =>
        if j < |gs0| {
          assert gs[j] == gs0[j] && gs0[j].key != key;
        } else {
          NoMembersNoEnergy(prev, key);
        }
      case Some(i) =>
        if j != i {
          assert gs[j] == gs0[j] && gs0[j].key != key;
        }
    }
  }

  /** Each group counts the organisms with its key and sums their energy. */
  lemma {:induction false} GroupsCount(orgs: seq<LegendOrganism>)
    ensures GroupsMatch(orgs, GroupsOf(orgs))
  {
    if orgs != [] {
      var m := |orgs| - 1;
      var prev := orgs[..m];
      GroupsCount(prev);
      GroupsDistinct(prev);
      GroupsAbsent(prev, KeyOf(orgs[m]));
      GroupsMatchStep(prev, orgs[m], GroupsOf(prev));
      assert orgs == prev + [orgs[m]];
    }
  }

  /** The counts add up to the number of organisms. */
  lemma {:induction false} GroupsTotal(orgs: seq<LegendOrganism>)
    ensures TotalCount(GroupsOf(orgs)) == |orgs|
  {
    if orgs != [] {
      var m := |orgs| - 1;
      GroupsTotal(orgs[..m]);
      var gs0 := GroupsOf(orgs[..m]);
      var o := orgs[m];
      match IndexOfKey(gs0, KeyOf(o))
      case None =>
        var g := Group(KeyOf(o), GetColorGroup(LegendHue(o)), 1, EnergyOf(o));
        assert (gs0 + [g])[..|gs0|] == gs0;
      case Some(i) =>
        TotalCountUpdate(gs0, i, gs0[i].(count := gs0[i].count + 1, sumEnergy := gs0[i].sumEnergy + EnergyOf(o)));
    }
  }

  /**
   * The grouping: keys are distinct; a group exists exactly for the keys
   * some organism has; each group's count is the number of organisms with
   * its key and its sumEnergy their summed energy; and the counts add up to
   * the number of organisms.
   */
  lemma GroupsOfSpec(orgs: seq<LegendOrganism>)
    ensures var gs := GroupsOf(orgs);
      && DistinctKeys(gs)
      && (forall i :: 0 <= i < |gs| ==>
            gs[i].count == CountWithKey(orgs, gs[i].key) && gs[i].count > 0 &&
            gs[i].sumEnergy == SumWithKey(orgs, gs[i].key))
      && (forall key :: IndexOfKey(gs, key).None? <==> CountWithKey(orgs, key) == 0)
      && TotalCount(gs) == |orgs|
  {
    GroupsDistinct(orgs);
    GroupsCount(orgs);
    GroupsTotal(orgs);
    forall key
      ensures IndexOfKey(GroupsOf(orgs), key).None? <==> CountWithKey(orgs, key) == 0
    {
      GroupsAbsent(orgs, key);
    }
  }

  /** Every organism's key has a group, and there are no groups without organisms. */
  lemma GroupsCoverOrganisms(orgs: seq<LegendOrganism>)
    ensures forall k :: 0 <= k < |orgs| ==> IndexOfKey(GroupsOf(orgs), KeyOf(orgs[k])).Some?
    ensures GroupsOf(orgs) == [] <==> orgs == []
  {
    GroupsOfSpec(orgs);
    forall k | 0 <= k < |orgs|
      ensures IndexOfKey(GroupsOf(orgs), KeyOf(orgs[k])).Some?
    {
      CountWithKeyPositive(orgs, k);
    }
    if orgs != [] {
      CountWithKeyPositive(orgs, 0);
    }
  }

  lemma {:induction false} CountWithKeyPositive(orgs: seq<LegendOrganism>, k: nat)
    requires k < |orgs|
    ensures CountWithKey(orgs, KeyOf(orgs[k])) > 0
  {
    var m := |orgs| - 1;
    if k < m {
      CountWithKeyPositive(orgs[..m], k);
    }
  }

  /** The grouping loop of src/OrganismLegend.js:128-138 over a dictionary kept in insertion order. */
  method GroupOrganisms(orgs: seq<LegendOrganism>) returns (groups: seq<Group>)
    ensures groups == GroupsOf(orgs)
  {
    groups := [];
    var k := 0;
    while k < |orgs|
      invariant 0 <= k <= |orgs|
      invariant groups == GroupsOf(orgs[..k])
    {
      var o := orgs[k];
      assert orgs[..k + 1][..k] == orgs[..k];
      var hue := if o.colorHue.Some? then o.colorHue.value else 0;
      var group := GetColorGroup(hue);
      var key := if group.entry.Some? then Named(group.entry.value.name) else Unnamed;
      var found := IndexOfKey(groups, key);
      if found.None? {
        groups := groups + [Group(key, group, 0, 0)];
      }
      var i := if found.Some? then found.value else |groups| - 1;
      var energy := if o.energy.Some? then o.energy.value else 0;
      groups := groups[i := groups[i].(count := groups[i].count + 1, sumEnergy := groups[i].sumEnergy + energy)];
      k := k + 1;
    }
    assert orgs[..k] == orgs;
  }

  ghost predicate SortedByCountDesc(s: seq<Group>) {
    forall i, j :: 0 <= i < j < |s| ==> s[i].count >= s[j].count
  }

  /** Places `g` after every element whose count is at least its own (keeps equal counts in order). */
  function InsertByCount(s: seq<Group>, g: Group): seq<Group> {
    if s == [] then [g]
    else if s[0].count >= g.count then [s[0]] + InsertByCount(s[1..], g)
    else [g] + s
  }

  /** The stable sort `sort((a, b) => b.count - a.count)`, as an insertion sort. */
  function SortByCount(gs: seq<Group>): seq<Group> {
    if gs == [] then [] else InsertByCount(SortByCount(gs[..|gs| - 1]), gs[|gs| - 1])
  }

  lemma {:induction false} InsertByCountSorted(s: seq<Group>, g: Group)
    requires SortedByCountDesc(s)
    ensures SortedByCountDesc(InsertByCount(s, g))
    ensures InsertByCount(s, g)[0] == g || InsertByCount(s, g)[0] == s[0]
  {
    if s != [] && s[0].count >= g.count {
      InsertByCountSorted(s[1..], g);
      var t := InsertByCount(s[1..], g);
      assert InsertByCount(s, g) == [s[0]] + t;
      assert s[0].count >= t[0].count;
      InsertByCountElements(s[1..], g);
    }
  }

  lemma {:induction false} InsertByCountElements(s: seq<Group>, g: Group)
    ensures multiset(InsertByCount(s, g)) == multiset(s) + multiset{g}
    ensures |InsertByCount(s, g)| == |s| + 1
  {
    if s != [] && s[0].count >= g.count {
      InsertByCountElements(s[1..], g);
      assert s == [s[0]] + s[1..];
    }
  }

  /** Sorting yields a non-increasing permutation of the groups. */
  lemma {:induction false} SortByCountSpec(gs: seq<Group>)
    ensures SortedByCountDesc(SortByCount(gs))
    ensures multiset(SortByCount(gs)) == multiset(gs)
    ensures |SortByCount(gs)| == |gs|
  {
    if gs != [] {
      var m := |gs| - 1;
      SortByCountSpec(gs[..m]);
      InsertByCountSorted(SortByCount(gs[..m]), gs[m]);
      InsertByCountElements(SortByCount(gs[..m]), gs[m]);
      assert gs == gs[..m] + [gs[m]];
    }
  }

  /** `sortedGroups`: the first five after sorting. */
  function TopGroups(gs: seq<Group>): seq<Group> {
    var sorted := SortByCount(gs);
    SortByCountSpec(gs);
    sorted[..if |sorted| < 5 then |sorted| else 5]
  }

  /**
   * The top-five list: at most five entries, in non-increasing count order,
   * each one of the groups, as many as there are groups up to five; and any
   * group left out has a count no larger than the last one listed.
   */
  lemma TopGroupsSpec(gs: seq<Group>)
    ensures var top := TopGroups(gs);
      && |top| == (if |gs| < 5 then |gs| else 5)
      && SortedByCountDesc(top)
      && multiset(top) <= multiset(gs)
      && (forall g :: g in gs && g !in top ==> |top| == 5 && g.count <= top[4].count)
  {
    SortByCountSpec(gs);
    var sorted := SortByCount(gs);
    var top := TopGroups(gs);
    assert sorted == top + sorted[|top|..];
    assert multiset(sorted) == multiset(top) + multiset(sorted[|top|..]);
    forall g | g in gs && g !in top
      ensures |top| == 5 && g.count <= top[4].count
    {
      assert g in multiset(gs);
      assert g in sorted;
      var p :| 0 <= p < |sorted| && sorted[p] == g;
      assert p >= |top|;
    }
  }

  /** `buddyOfDay`: the first of the sorted groups, when there is one. */
  function BuddyOfDay(gs: seq<Group>): Option<Group> {
    var top := TopGroups(gs);
    if top == [] then None else Some(top[0])
  }

  /**
   * The buddy of the day has the largest count of all groups, and is absent
   * exactly when no organism was grouped.
   */
  lemma BuddyOfDaySpec(orgs: seq<LegendOrganism>)
    ensures var gs := GroupsOf(orgs);
      && (BuddyOfDay(gs).None? <==> orgs == [])
      && (BuddyOfDay(gs).Some? ==>
            BuddyOfDay(gs).value in gs &&
            forall g :: g in gs ==> g.count <= BuddyOfDay(gs).value.count)
  {
    var gs := GroupsOf(orgs);
    GroupsCoverOrganisms(orgs);
    TopGroupsSpec(gs);
    SortByCountSpec(gs);
    var top := TopGroups(gs);
    if top != [] {
      assert top[0] in multiset(gs);
      forall g | g in gs
        ensures g.count <= top[0].count
      {
        if g !in top {
          assert g.count <= top[4].count;
        } else {
          var p :| 0 <= p < |top| && top[p] == g;
        }
      }
    }
  }

  /** `g.count ? Math.round(g.sumEnergy / g.count) : 0`. */
  function AverageEnergy(g: Group): (avg: int)
    ensures g.count == 0 ==> avg == 0
    ensures g.count > 0 ==> 2 * g.count * avg - g.count <= 2 * g.sumEnergy < 2 * g.count * avg + g.count
  {
    if g.count > 0 then RoundDiv(g.sumEnergy, g.count) else 0
  }
}
