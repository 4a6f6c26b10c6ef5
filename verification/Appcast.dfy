/**
 * The release check of an update feed: every item needs a numeric build, and the build of a
 * dated item must reach the floor of its scheme. Builds from LANE_BUILD_MIN on use lane floors;
 * smaller builds may use legacy floors only before the first date on which lane builds appear.
 *
 * `ReportIsEmptyIff` says what an empty report means item by item, `SchemesDoNotMix` what it
 * means for the feed as a whole.
 */
module Appcast {
  import opened Basics
  import opened SparkleBuild
  import JsText

  /** What the patterns found of an item; the short version is trimmed, as is the build. */
  datatype Item = Item(title: Option<string>, shortVersion: Option<string>, version: Option<string>)

  datatype Error =
    | NoItems
    | MissingVersion(title: string)
    | NonNumericVersion(title: string, version: string)
    | BelowFloor(title: string, build: nat, laneScheme: bool, floor: nat)

  datatype Release = Release(title: string, build: nat, floors: Floors)

  const LANE_FLOOR_ADOPTION: nat := 20260227

  function Title(item: Item): string {
    if item.title.Some? then item.title.value else "unknown"
  }

  predicate IsPresent(s: Option<string>) {
    s.Some? && s.value != ""
  }

  predicate HasBuild(item: Item) {
    IsPresent(item.version) && AllDigits(item.version.value)
  }

  function ItemErrors(item: Item): seq<Error> {
    if !IsPresent(item.version) then [MissingVersion(Title(item))]
    else if !AllDigits(item.version.value) then [NonNumericVersion(Title(item), item.version.value)]
    else []
  }

  /** The items that are dated and have a build. */
  predicate IsRelease(item: Item) {
    HasBuild(item) && IsPresent(item.shortVersion) && SparkleBuildFloors(item.shortVersion.value).Some?
  }

  function ReleaseOf(item: Item): Release
    requires IsRelease(item)
  {
    Release(Title(item), Value(item.version.value), SparkleBuildFloors(item.shortVersion.value).value)
  }

  predicate IsLane(r: Release) {
    r.build >= LANE_BUILD_MIN
  }

  // ---------------------------------------------------------------- the report, by recursion over the items

  function AllItemErrors(items: seq<Item>): seq<Error> {
    if items == [] then [] else AllItemErrors(items[..|items| - 1]) + ItemErrors(items[|items| - 1])
  }

  function Releases(items: seq<Item>): seq<Release> {
    if items == [] then []
    else
      var last := items[|items| - 1];
      Releases(items[..|items| - 1]) + if IsRelease(last) then [ReleaseOf(last)] else []
  }

  /** The earliest date of a lane build. */
  function ObservedAdoption(releases: seq<Release>): Option<nat> {
    if releases == [] then None
    else
      var last := releases[|releases| - 1];
      var before := ObservedAdoption(releases[..|releases| - 1]);
      if !IsLane(last) then before
      else if before.Some? && before.value <= last.floors.dateKey then before
      else Some(last.floors.dateKey)
  }

  function Adoption(releases: seq<Release>): nat {
    var observed := ObservedAdoption(releases);
    if observed.Some? && observed.value < LANE_FLOOR_ADOPTION then observed.value else LANE_FLOOR_ADOPTION
  }

  function FloorErrors(r: Release, adoption: nat): seq<Error> {
    var laneScheme := IsLane(r) || r.floors.dateKey >= adoption;
    var floor := if laneScheme then r.floors.laneFloor else r.floors.legacyFloor;
    if r.build < floor then [BelowFloor(r.title, r.build, laneScheme, floor)] else []
  }

  function AllFloorErrors(releases: seq<Release>, adoption: nat): seq<Error> {
    if releases == [] then []
    else AllFloorErrors(releases[..|releases| - 1], adoption) + FloorErrors(releases[|releases| - 1], adoption)
  }

  function Report(items: seq<Item>): seq<Error> {
    (if items == [] then [NoItems] else []) + AllItemErrors(items) + AllFloorErrors(Releases(items), Adoption(Releases(items)))
  }

  lemma NothingYet()
    ensures AllItemErrors([]) == [] && Releases([]) == [] && forall a :: AllFloorErrors([], a) == []
  {
  }

  lemma ItemStep(items: seq<Item>, i: nat)
    requires i < |items|
    ensures AllItemErrors(items[..i + 1]) == AllItemErrors(items[..i]) + ItemErrors(items[i])
    ensures Releases(items[..i + 1]) == Releases(items[..i]) + if IsRelease(items[i]) then [ReleaseOf(items[i])] else []
  {
    assert items[..i + 1][..i] == items[..i];
  }

  lemma FloorStep(releases: seq<Release>, i: nat, adoption: nat)
    requires i < |releases|
    ensures AllFloorErrors(releases[..i + 1], adoption) == AllFloorErrors(releases[..i], adoption) + FloorErrors(releases[i], adoption)
  {
    assert releases[..i + 1][..i] == releases[..i];
  }

  method CollectErrors(items: seq<Item>) returns (errors: seq<Error>)
    ensures errors == Report(items)
  {
    hide SparkleBuildFloors, Value, AllDigits, AllItemErrors, Releases, AllFloorErrors, Adoption;
    NothingYet();
    errors := [];
    var releases: seq<Release> := [];
    if |items| == 0 {
      errors := errors + [NoItems];
    }
    ghost var first := errors;
    for i := 0 to |items|
      invariant errors == first + AllItemErrors(items[..i])
      invariant releases == Releases(items[..i])
    {
      ItemStep(items, i);
      var item := items[i];
      if !IsPresent(item.version) {
        errors := errors + [MissingVersion(Title(item))];
        continue;
      }
      var version := item.version.value;
      if !AllDigits(version) {
        errors := errors + [NonNumericVersion(Title(item), version)];
        continue;
      }
      if !IsPresent(item.shortVersion) {
        continue;
      }
      var floors := SparkleBuildFloors(item.shortVersion.value);
      if floors.None? {
        continue;
      }
      releases := releases + [Release(Title(item), Value(version), floors.value)];
    }
    assert items[..|items|] == items;
    var adoption := Adoption(releases);
    ghost var second := errors;
    for i := 0 to |releases|
      invariant errors == second + AllFloorErrors(releases[..i], adoption)
    {
      FloorStep(releases, i, adoption);
      var r := releases[i];
      var laneScheme := r.build >= LANE_BUILD_MIN || r.floors.dateKey >= adoption;
      var floor := if laneScheme then r.floors.laneFloor else r.floors.legacyFloor;
      if r.build < floor {
        errors := errors + [BelowFloor(r.title, r.build, laneScheme, floor)];
      }
    }
    assert releases[..|releases|] == releases;
  }

  // ---------------------------------------------------------------- what a report says

  /** The item is named by its title, or as unknown. */
  predicate Named(item: Item, title: string) {
    item.title == Some(title) || (item.title.None? && title == "unknown")
  }

  lemma {:induction false} ItemErrorsAre(items: seq<Item>, e: Error)
    ensures e in AllItemErrors(items) <==> exists item :: item in items && e in ItemErrors(item)
  {
    hide ItemErrors;
    if items != [] {
      ItemErrorsAre(items[..|items| - 1], e);
      assert items == items[..|items| - 1] + [items[|items| - 1]];
      assert items[|items| - 1] in items;
    }
  }

  lemma {:induction false} FloorErrorsAre(releases: seq<Release>, adoption: nat, e: Error)
    ensures e in AllFloorErrors(releases, adoption) <==> exists r :: r in releases && e in FloorErrors(r, adoption)
  {
    hide FloorErrors;
    if releases != [] {
      FloorErrorsAre(releases[..|releases| - 1], adoption, e);
      assert releases == releases[..|releases| - 1] + [releases[|releases| - 1]];
      assert releases[|releases| - 1] in releases;
    }
  }

  /** Which errors name a missing and a non-numeric version. */
  lemma VersionErrors(items: seq<Item>, title: string, version: string)
    ensures NoItems in Report(items) <==> items == []
    ensures MissingVersion(title) in Report(items) <==>
      exists item :: item in items && Named(item, title) && (item.version.None? || item.version.value == "")
    ensures NonNumericVersion(title, version) in Report(items) <==>
      version != "" && !AllDigits(version) && exists item :: item in items && Named(item, title) && item.version == Some(version)
  {
    hide AllDigits, AllItemErrors, AllFloorErrors, Releases;
    ReportParts(items, NoItems);
    ReportParts(items, MissingVersion(title));
    ReportParts(items, NonNumericVersion(title, version));
    ItemErrorsAre(items, NoItems);
    ItemErrorsAre(items, MissingVersion(title));
    ItemErrorsAre(items, NonNumericVersion(title, version));
    forall item ensures MissingVersion(title) in ItemErrors(item) <==> Named(item, title) && (item.version.None? || item.version.value == "") {
    }
    forall item ensures NonNumericVersion(title, version) in ItemErrors(item) <==>
      Named(item, title) && item.version == Some(version) && version != "" && !AllDigits(version) {
    }
  }

  lemma ReportParts(items: seq<Item>, e: Error)
    ensures e in Report(items) <==>
      (items == [] && e == NoItems) || e in AllItemErrors(items) || (e.BelowFloor? && e in AllFloorErrors(Releases(items), Adoption(Releases(items))))
  {
    hide AllItemErrors, Releases, Adoption, FloorErrors;
    FloorErrorsAre(Releases(items), Adoption(Releases(items)), e);
    hide AllFloorErrors;
    if !e.BelowFloor? {
      forall r ensures e !in FloorErrors(r, Adoption(Releases(items))) {
        OnlyBelowFloor(r, Adoption(Releases(items)), e);
      }
    }
  }

  lemma OnlyBelowFloor(r: Release, adoption: nat, e: Error)
    ensures e in FloorErrors(r, adoption) ==> e.BelowFloor?
  {
  }

  // ---------------------------------------------------------------- what an empty report means

  lemma {:induction false} ReleasesAreItems(items: seq<Item>)
    ensures forall r :: r in Releases(items) <==> exists i :: 0 <= i < |items| && IsRelease(items[i]) && ReleaseOf(items[i]) == r
  {
    hide SparkleBuildFloors, Value, AllDigits;
    if items != [] {
      var n := |items| - 1;
      ReleasesAreItems(items[..n]);
      forall r ensures r in Releases(items) <==> exists i :: 0 <= i < |items| && IsRelease(items[i]) && ReleaseOf(items[i]) == r {
        if i :| 0 <= i < |items| && IsRelease(items[i]) && ReleaseOf(items[i]) == r {
          if i < n { assert items[..n][i] == items[i]; }
        }
        if r in Releases(items[..n]) {
          var i :| 0 <= i < n && IsRelease(items[..n][i]) && ReleaseOf(items[..n][i]) == r;
          assert items[i] == items[..n][i];
        }
      }
    }
  }

  lemma {:induction false} ObservedIsEarliest(releases: seq<Release>)
    ensures var observed := ObservedAdoption(releases);
      && (forall r :: r in releases && IsLane(r) ==> observed.Some? && observed.value <= r.floors.dateKey)
      && (observed.Some? ==> exists r :: r in releases && IsLane(r) && r.floors.dateKey == observed.value)
  {
    if releases != [] {
      var n := |releases| - 1;
      ObservedIsEarliest(releases[..n]);
      assert releases == releases[..n] + [releases[n]];
      assert releases[n] in releases;
    }
  }

  lemma {:induction false} NoItemErrors(items: seq<Item>)
    ensures AllItemErrors(items) == [] <==> forall i :: 0 <= i < |items| ==> HasBuild(items[i])
  {
    hide AllDigits;
    if items != [] {
      var n := |items| - 1;
      NoItemErrors(items[..n]);
      assert forall i :: 0 <= i < n ==> items[..n][i] == items[i];
    }
  }

  lemma {:induction false} NoFloorErrors(releases: seq<Release>, adoption: nat)
    ensures AllFloorErrors(releases, adoption) == [] <==> forall r :: r in releases ==> FloorErrors(r, adoption) == []
  {
    if releases != [] {
      var n := |releases| - 1;
      NoFloorErrors(releases[..n], adoption);
      assert releases == releases[..n] + [releases[n]];
      assert releases[n] in releases;
    }
  }

  /** Dated before the lanes: before the fixed adoption date and before every dated lane build of the feed. */
  ghost predicate BeforeLanes(date: nat, items: seq<Item>) {
    && date < 2026_02_27
    && forall j :: 0 <= j < |items| && IsRelease(items[j]) && IsLane(ReleaseOf(items[j])) ==> date < ReleaseOf(items[j]).floors.dateKey
  }

  /** The build reaches its floor: the legacy floor for a small build before the lanes, otherwise the lane floor. */
  ghost predicate ReachesFloor(r: Release, items: seq<Item>) {
    if !IsLane(r) && BeforeLanes(r.floors.dateKey, items) then r.build >= r.floors.legacyFloor else r.build >= r.floors.laneFloor
  }

  lemma AdoptionIsFirstLane(items: seq<Item>, date: nat)
    ensures date < Adoption(Releases(items)) <==> BeforeLanes(date, items)
  {
    hide SparkleBuildFloors, Value, AllDigits;
    ReleasesAreItems(items);
    ObservedIsEarliest(Releases(items));
    if BeforeLanes(date, items) && ObservedAdoption(Releases(items)).Some? {
      var r :| r in Releases(items) && IsLane(r) && r.floors.dateKey == ObservedAdoption(Releases(items)).value;
    }
  }

  /** Nothing is reported exactly when there are items, all have builds, and every dated one reaches its floor. */
  lemma ReportIsEmptyIff(items: seq<Item>)
    ensures Report(items) == [] <==>
      && items != []
      && (forall i :: 0 <= i < |items| ==> HasBuild(items[i]))
      && (forall i :: 0 <= i < |items| && IsRelease(items[i]) ==> ReachesFloor(ReleaseOf(items[i]), items))
  {
    hide SparkleBuildFloors, Value, AllDigits, BeforeLanes;
    var releases := Releases(items);
    var adoption := Adoption(releases);
    NoItemErrors(items);
    NoFloorErrors(releases, adoption);
    ReleasesAreItems(items);
    forall r: Release ensures FloorErrors(r, adoption) == [] <==> ReachesFloor(r, items) {
      AdoptionIsFirstLane(items, r.floors.dateKey);
    }
  }

  /** Which errors name a build below its floor: the floor of the lanes for a build among them or dated after the
      lanes began, and otherwise the legacy floor. */
  lemma FloorErrorsSay(items: seq<Item>, title: string, build: nat, laneScheme: bool, floor: nat)
    ensures BelowFloor(title, build, laneScheme, floor) in Report(items) <==>
      exists item :: item in items && IsRelease(item) && FallsShort(ReleaseOf(item), items, title, build, laneScheme, floor)
  {
    hide AllDigits, AllItemErrors, AllFloorErrors, Releases, Adoption, BeforeLanes, SparkleBuildFloors, Value, IsRelease, ReleaseOf;
    var e, adoption := BelowFloor(title, build, laneScheme, floor), Adoption(Releases(items));
    ReportParts(items, e);
    ItemErrorsAre(items, e);
    FloorErrorsAre(Releases(items), adoption, e);
    ReleasesAreItems(items);
    forall r: Release ensures e in FloorErrors(r, adoption) <==> FallsShort(r, items, title, build, laneScheme, floor) {
      AdoptionIsFirstLane(items, r.floors.dateKey);
    }
    hide FloorErrors, FallsShort, ItemErrors;
    if r :| r in Releases(items) && e in FloorErrors(r, adoption) {
      var i :| 0 <= i < |items| && IsRelease(items[i]) && ReleaseOf(items[i]) == r;
      assert items[i] in items;
    }
  }

  ghost predicate FallsShort(r: Release, items: seq<Item>, title: string, build: nat, laneScheme: bool, floor: nat) {
    && r.title == title && r.build == build && build < floor
    && (laneScheme <==> r.build >= LANE_BUILD_MIN || !BeforeLanes(r.floors.dateKey, items))
    && floor == if laneScheme then r.floors.laneFloor else r.floors.legacyFloor
  }

  /**
   * In a feed without errors every dated build below the lanes is dated before every dated lane build
   * and before the fixed date; the one exception is a date before the year 1000.
   */
  lemma SchemesDoNotMix(items: seq<Item>, i: nat)
    requires Report(items) == []
    requires i < |items| && IsRelease(items[i]) && !IsLane(ReleaseOf(items[i]))
    ensures BeforeLanes(ReleaseOf(items[i]).floors.dateKey, items) || ReleaseOf(items[i]).floors.dateKey < 1000_00_00
  {
    hide Value, AllDigits, BeforeLanes;
    ReportIsEmptyIff(items);
    var r := ReleaseOf(items[i]);
    var year, month, day, suffix := FloorsOfDate(items[i].shortVersion.value);
  }

  /** A feed without errors in which the version `small` has a build below the lanes and the version `lane`,
      dated no later, has one among them. */
  ghost predicate Mixes(items: seq<Item>, i: nat, j: nat, small: string, lane: string) {
    && Report(items) == []
    && i < |items| && IsRelease(items[i]) && items[i].shortVersion == Some(small) && !IsLane(ReleaseOf(items[i]))
    && j < |items| && IsRelease(items[j]) && items[j].shortVersion == Some(lane) && IsLane(ReleaseOf(items[j]))
    && ReleaseOf(items[j]).floors.dateKey <= ReleaseOf(items[i]).floors.dateKey
  }

  /** The smallest lane build, and the other version with its own lane floor as its build. */
  function MixedFeed(small: string, lane: string): seq<Item>
    requires SparkleBuildFloors(small).Some?
  {
    [Item(None, Some(small), Some(Numeral(SparkleBuildFloors(small).value.laneFloor))),
     Item(None, Some(lane), Some(Numeral(LANE_BUILD_MIN)))]
  }

  /** Every version dated before the year 1000 can be mixed with every one dated no later. */
  lemma MixedFeedMixes(small: string, y1: nat, m1: nat, d1: nat, s1: string, lane: string, y2: nat, m2: nat, d2: nat, s2: string)
    requires Dated(small, y1, m1, d1, s1) && IsDate(y1, m1, d1) && Dated(lane, y2, m2, d2, s2) && IsDate(y2, m2, d2)
    requires y1 < 1000 && !DateBefore(y1, m1, d1, y2, m2, d2)
    ensures SparkleBuildFloors(small).Some? && Mixes(MixedFeed(small, lane), 0, 1, small, lane)
  {
    FloorsExist(small, y1, m1, d1, s1);
    FloorsExist(lane, y2, m2, d2, s2);
    DatedIsPresent(small, y1, m1, d1, s1);
    DatedIsPresent(lane, y2, m2, d2, s2);
    hide SparkleBuildFloors, Dated, Lane, Report;
    var f, g := FloorsFor(y1, m1, d1, s1), FloorsFor(y2, m2, d2, s2);
    var items := MixedFeed(small, lane);
    BuiltRelease(small, f.laneFloor);
    BuiltRelease(lane, LANE_BUILD_MIN);
    TwoReleases(items[0], items[1]);
  }

  lemma BuiltRelease(version: string, build: nat)
    requires SparkleBuildFloors(version).Some? && IsPresent(Some(version))
    ensures var item := Item(None, Some(version), Some(Numeral(build)));
      IsRelease(item) && ReleaseOf(item) == Release("unknown", build, SparkleBuildFloors(version).value)
  {
    NumeralReads(build);
  }

  /** A small build that reaches its lane floor and is not dated before a lane build that reaches its own. */
  lemma TwoReleases(small: Item, lane: Item)
    requires IsRelease(small) && IsRelease(lane) && !IsLane(ReleaseOf(small)) && IsLane(ReleaseOf(lane))
    requires ReleaseOf(small).build >= ReleaseOf(small).floors.laneFloor && ReleaseOf(lane).build >= ReleaseOf(lane).floors.laneFloor
    requires ReleaseOf(lane).floors.dateKey <= ReleaseOf(small).floors.dateKey
    ensures Report([small, lane]) == [] && !BeforeLanes(ReleaseOf(small).floors.dateKey, [small, lane])
  {
    hide IsRelease, ReleaseOf, Report;
    var items := [small, lane];
    assert IsRelease(items[1]) && IsLane(ReleaseOf(items[1]));
    assert !BeforeLanes(ReleaseOf(small).floors.dateKey, items);
    assert HasBuild(small) && HasBuild(lane) by { ReleasesHaveBuilds(small); ReleasesHaveBuilds(lane); }
    ReportIsEmptyIff(items);
  }

  lemma ReleasesHaveBuilds(item: Item)
    requires IsRelease(item)
    ensures HasBuild(item)
  {
  }

  lemma DatedIsPresent(version: string, year: nat, month: nat, day: nat, suffix: string)
    requires Dated(version, year, month, day, suffix)
    ensures IsPresent(Some(version))
  {
    var c :| IsCalver(JsText.Trim(version), c);
  }

  /** A feed without errors can mix the schemes on two versions exactly when the one with the small build is
      dated before the year 1000 and not before the other. */
  lemma SchemesMixIff(small: string, y1: nat, m1: nat, d1: nat, s1: string, lane: string, y2: nat, m2: nat, d2: nat, s2: string)
    requires Dated(small, y1, m1, d1, s1) && IsDate(y1, m1, d1) && Dated(lane, y2, m2, d2, s2) && IsDate(y2, m2, d2)
    ensures (exists items, i, j :: Mixes(items, i, j, small, lane)) <==> y1 < 1000 && !DateBefore(y1, m1, d1, y2, m2, d2)
  {
    if y1 < 1000 && !DateBefore(y1, m1, d1, y2, m2, d2) {
      MixedFeedMixes(small, y1, m1, d1, s1, lane, y2, m2, d2, s2);
    }
    forall items, i, j | Mixes(items, i, j, small, lane) ensures y1 < 1000 && !DateBefore(y1, m1, d1, y2, m2, d2) {
      MixedOnlyEarly(items, i, j, small, y1, m1, d1, s1, lane, y2, m2, d2, s2);
    }
  }

  lemma MixedOnlyEarly(items: seq<Item>, i: nat, j: nat, small: string, y1: nat, m1: nat, d1: nat, s1: string,
                       lane: string, y2: nat, m2: nat, d2: nat, s2: string)
    requires Dated(small, y1, m1, d1, s1) && IsDate(y1, m1, d1) && Dated(lane, y2, m2, d2, s2) && IsDate(y2, m2, d2)
    requires Mixes(items, i, j, small, lane)
    ensures y1 < 1000 && !DateBefore(y1, m1, d1, y2, m2, d2)
  {
    FloorsExist(small, y1, m1, d1, s1);
    FloorsExist(lane, y2, m2, d2, s2);
    SchemesDoNotMix(items, i);
    hide SparkleBuildFloors, Value, AllDigits, Dated, Lane, Report;
    assert ReleaseOf(items[i]).floors == FloorsFor(y1, m1, d1, s1);
    assert ReleaseOf(items[j]).floors == FloorsFor(y2, m2, d2, s2);
  }

  /** The exception is real: with dates before the year 1000 a feed without errors can mix the schemes. */
  lemma EarlyYearsMix()
    ensures var items := [Item(None, Some("0600.1.1"), Some("600010190")), Item(None, Some("0500.1.1"), Some("1000000000"))];
      && Report(items) == []
      && IsRelease(items[0]) && !IsLane(ReleaseOf(items[0])) && !BeforeLanes(ReleaseOf(items[0]).floors.dateKey, items)
  {
    hide SparkleBuildFloors, Value, AllDigits, Numeral, Report;
    var small, lane := Item(None, Some("0600.1.1"), Some("600010190")), Item(None, Some("0500.1.1"), Some("1000000000"));
    EarlyFloors();
    LaneBuildText();
    SmallBuildText();
    assert ReleaseOf(lane) == Release("unknown", 1000000000, Floors(5000101, 50001010, 500010190, 90));
    assert ReleaseOf(small) == Release("unknown", 600010190, Floors(6000101, 60001010, 600010190, 90));
    TwoReleases(small, lane);
  }

  lemma EarlyFloors()
    ensures SparkleBuildFloors("0500.1.1") == Some(Floors(5000101, 50001010, 500010190, 90))
    ensures SparkleBuildFloors("0600.1.1") == Some(Floors(6000101, 60001010, 600010190, 90))
  {
    hide Value, AllDigits, SparkleBuildFloors, Lane;
    assert "0" + "500" + ".1.1" == "0500.1.1";
    assert "0" + "600" + ".1.1" == "0600.1.1";
    HundredsText('5', "500");
    HundredsText('6', "600");
    EarlyVersion("0500.1.1", "500", 500);
    EarlyVersion("0600.1.1", "600", 600);
  }

  lemma HundredsText(c: char, s: string)
    requires IsDigit(c) && s == [c] + "00"
    ensures AllDigits(s) && Value(s) == 100 * (c as int - '0' as int)
  {
    AppendDigit("", c);
    assert "" + [c] == [c] && Value("") == 0;
    hide Value, AllDigits;
    TwoMore([c], '0', '0', s);
  }

  lemma TwoMore(a: string, c: char, d: char, s: string)
    requires AllDigits(a) && IsDigit(c) && IsDigit(d) && s == a + [c] + [d]
    ensures AllDigits(s) && Value(s) == Value(a) * 100 + (c as int - '0' as int) * 10 + (d as int - '0' as int)
  {
    AppendTwoDigits(a, c, d);
  }

  lemma LaneBuildText()
    ensures AllDigits("1000000000") && Value("1000000000") == 1000000000
  {
    assert Value("") == 0;
    hide Value;
    TwoMore("", '1', '0', "10");
    TwoMore("10", '0', '0', "1000");
    TwoMore("1000", '0', '0', "100000");
    TwoMore("100000", '0', '0', "10000000");
    TwoMore("10000000", '0', '0', "1000000000");
  }

  lemma SmallBuildText()
    ensures AllDigits("600010190") && Value("600010190") == 600010190
  {
    AppendDigit("", '6');
    assert Value("6") == 6;
    hide Value;
    TwoMore("6", '0', '0', "600");
    TwoMore("600", '0', '1', "60001");
    TwoMore("60001", '0', '1', "6000101");
    TwoMore("6000101", '9', '0', "600010190");
  }

  lemma EarlyVersion(version: string, yearText: string, year: nat)
    requires version == "0" + yearText + ".1.1" && |yearText| == 3 && AllDigits(yearText) && Value(yearText) == year
    ensures SparkleBuildFloors(version) == Some(FloorsFor(year, 1, 1, ""))
  {
    LeadingZero(yearText);
    OneReads();
    EarlyCalver(version, "0" + yearText);
    hide Value, AllDigits, JsText.Trim, FloorsFor, SparkleBuildFloors, IsCalver;
    var c := Calver("0" + yearText, "1", "1", "");
    assert Reads(c, year, 1, 1, "");
    YearBelow(version, c);
    FloorsExist(version, year, 1, 1, "");
  }

  lemma EarlyCalver(version: string, yearText: string)
    requires version == yearText + ".1.1" && |yearText| == 4 && AllDigits(yearText)
    ensures AllDigits("1") && IsCalver(version, Calver(yearText, "1", "1", "")) && JsText.Trim(version) == version
  {
    OneReads();
    JsText.TrimTrims(version);
    assert IsDigit(yearText[0]) && version[0] == yearText[0] && version[|version| - 1] == '1';
    assert JsText.IsTrimmed(version);
    hide Value, AllDigits, JsText.Trim;
    assert "." + ("1" + ("." + ("1" + ""))) == ".1.1";
  }

  lemma OneReads()
    ensures AllDigits("1") && Value("1") == 1
  {
    AppendDigit("", '1');
    assert "" + ['1'] == "1";
  }
}
