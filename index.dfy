/** `selectRoster` of src/index.ts, a second copy of the allocator, and the
    sample roster the file declares. */
module Index {
  import opened Seqs
  import opened Model
  import opened ModelProofs

  /** `selectRoster`: the allocator of `calculateLineup` written out again,
      with its own pools, dictionary, taken set and closures. `Roster` has
      the five fields of `Lineup`, and the loops it shares word for word
      with `calculateLineup` are the same helper methods. */
  method SelectRoster(players: seq<Player>) returns (roster: Lineup)
    ensures roster == Allocate(players)
    ensures |roster.centers| <= 2 && |roster.guards| <= 4
    ensures |roster.forwards| <= 4 && |roster.gfc| <= 2
    ensures UniqueIds(players) ==> multiset(Parts(roster)) == multiset(players)
    ensures UniqueIds(players) ==>
      forall p :: p in roster.reserve ==> p !in roster.centers + roster.guards + roster.forwards + roster.gfc
  {
    var guards, forwards, centers, gfc, playersById := CollectPools(players);
    PoolKeyed(players, "G");
    PoolKeyed(players, "F");
    PoolKeyed(players, "C");
    AllIdsKeyed(players);
    var guardPool := SortedPool(guards, playersById);
    var forwardPool := SortedPool(forwards, playersById);
    var centerPool := SortedPool(centers, playersById);
    var gfcPool := SortedPool(gfc, playersById);

    ghost var C, G, F, X := centerPool[..], guardPool[..], forwardPool[..], gfcPool[..];
    var taken: set<string> := {};
    var cs, gs, fs, xs: seq<Player> := [], [], [], [];

    ghost var c0 := Slot(cs, taken);
    cs, taken := AssignPlayer(centerPool, playersById, cs, taken);
    cs, taken := AssignPlayer(centerPool, playersById, cs, taken);
    FillUnfold(C, playersById, c0);

    ghost var g0 := Slot(gs, taken);
    gs, taken := AssignPlayer(guardPool, playersById, gs, taken);
    gs, taken := AssignPlayer(guardPool, playersById, gs, taken);
    gs, taken := AssignPlayer(guardPool, playersById, gs, taken);
    gs, taken := AssignPlayer(guardPool, playersById, gs, taken);
    FillUnfold(G, playersById, g0);

    ghost var f0 := Slot(fs, taken);
    fs, taken := AssignPlayer(forwardPool, playersById, fs, taken);
    fs, taken := AssignPlayer(forwardPool, playersById, fs, taken);
    fs, taken := AssignPlayer(forwardPool, playersById, fs, taken);
    fs, taken := AssignPlayer(forwardPool, playersById, fs, taken);
    FillUnfold(F, playersById, f0);

    ghost var x0 := Slot(xs, taken);
    xs, taken := AssignPlayer(gfcPool, playersById, xs, taken);
    xs, taken := AssignPlayer(gfcPool, playersById, xs, taken);
    FillUnfold(X, playersById, x0);

    var reserve := CollectReserve(gfcPool, playersById, taken);
    roster := Lineup(cs, gs, fs, xs, reserve);

    Capacity(players);
    if UniqueIds(players) {
      Partition(players);
      Reserve(players);
    }
  }

  /** `selectRoster` and `calculateLineup` give the same result on every
      roster. */
  method SameAllocation(players: seq<Player>) returns (lineup: Lineup, roster: Lineup)
    ensures lineup == roster
    ensures lineup == Allocate(players)
  {
    lineup := CalculateLineup(players);
    roster := SelectRoster(players);
  }

  function TestCenters(): (r: seq<Player>) {
    [
      Player("1647481", "Nikola Vucevic", ["C"], Playing, 28),
      Player("2152455", "Domantas Sabonis", ["C"], Playing, 96)
    ]
  }

  function TestGuards(): (r: seq<Player>) {
    [
      Player("2135526", "Spencer Dinwiddie", ["G"], Playing, 119),
      Player("2355022", "Malik Monk", ["G"], Playing, 263),
      Player("1646202", "Kemba Walker", ["G"], NotPlaying, 10),
      Player("1622555", "Russell Westbrook", ["G"], NotPlaying, 30)
    ]
  }

  function TestForwards(): (r: seq<Player>) {
    [
      Player("2135532", "Aaron Gordon", ["F"], Playing, 100),
      Player("2135570", "T.J. Warren", ["F"], Playing, 117),
      Player("2106818", "DeAndre' Bembry", ["F"], Playing, 207),
      Player("1905196", "Norman Powell", ["F"], Playing, 211)
    ]
  }

  function TestFlex(): (r: seq<Player>) {
    [
      Player("1231870", "Marc Gasol", ["C"], Playing, 187),
      Player("2842761", "Luke Kennard", ["F", "G"], NotPlaying, 32)
    ]
  }

  function TestReserve(): (r: seq<Player>) {
    [
      Player("1992781", "Harrison Barnes", ["F"], NotPlaying, 60),
      Player("555988", "Lou Williams", ["G"], NotPlaying, 66),
      Player("1831130", "Davis Bertans", ["F"], NotPlaying, 81),
      Player("1113157", "Rudy Gay", ["F"], NotPlaying, 151),
      Player("1622501", "Eric Gordon", ["F", "G"], NotPlaying, 186),
      Player("2153012", "Jakob Poeltl", ["C"], NotPlaying, 237),
      Player("2202574", "Malik Beasley", ["G"], Injured, 232),
      Player("1113178", "Rajon Rondo", ["G"], Injured, 408)
    ]
  }

  function TestCentersIds(): (r: seq<string>) {
    ["1647481", "2152455"]
  }

  function TestGuardsIds(): (r: seq<string>) {
    ["2135526", "2355022", "1646202", "1622555"]
  }

  function TestForwardsIds(): (r: seq<string>) {
    ["2135532", "2135570", "2106818", "1905196"]
  }

  function TestFlexIds(): (r: seq<string>) {
    ["1231870", "2842761"]
  }

  function TestReserveIds(): (r: seq<string>) {
    ["1992781", "555988", "1831130", "1113157", "1622501", "2153012", "2202574", "1113178"]
  }

  /** The sample roster of src/index.ts. */
  function TestRoster(): (r: Lineup) {
    Lineup(TestCenters(), TestGuards(), TestForwards(), TestFlex(), TestReserve())
  }

  // The ids of each part of the sample roster.
  lemma TestCentersAllIds()
    ensures AllIds(TestCenters()) == TestCentersIds()
  {
  }

  lemma TestGuardsAllIds()
    ensures AllIds(TestGuards()) == TestGuardsIds()
  {
  }

  lemma TestForwardsAllIds()
    ensures AllIds(TestForwards()) == TestForwardsIds()
  {
  }

  lemma TestFlexAllIds()
    ensures AllIds(TestFlex()) == TestFlexIds()
  {
  }

  lemma TestReserveAllIds()
    ensures AllIds(TestReserve()) == TestReserveIds()
  {
  }

  /** The sample roster flattened part by part, the input it is meant to
      reproduce. */
  function TestPlayers(): (r: seq<Player>) {
    Parts(TestRoster())
  }

  lemma TestIdsSplit()
    ensures AllIds(TestPlayers())
         == (TestCentersIds() + TestGuardsIds() + TestForwardsIds()) + (TestFlexIds() + TestReserveIds())
  {
    TestCentersAllIds();
    TestGuardsAllIds();
    TestForwardsAllIds();
    TestFlexAllIds();
    TestReserveAllIds();
    AllIdsAppend(TestCenters(), TestGuards());
    AllIdsAppend(TestCenters() + TestGuards(), TestForwards());
    AllIdsAppend(TestCenters() + TestGuards() + TestForwards(), TestFlex());
    AllIdsAppend(TestCenters() + TestGuards() + TestForwards() + TestFlex(), TestReserve());
  }

  lemma TestSlotIdsDistinct()
    ensures Distinct(TestCentersIds() + TestGuardsIds() + TestForwardsIds())
  {
  }

  lemma TestRestIdsDistinct()
    ensures Distinct(TestFlexIds() + TestReserveIds())
  {
  }

  lemma TestIdsApart()
    ensures forall x :: x in TestCentersIds() + TestGuardsIds() + TestForwardsIds()
                     ==> x !in TestFlexIds() + TestReserveIds()
  {
  }

  /** No id occurs twice in the sample roster. */
  lemma TestIdsUnique()
    ensures UniqueIds(TestPlayers())
  {
    TestIdsSplit();
    TestSlotIdsDistinct();
    TestRestIdsDistinct();
    TestIdsApart();
    DistinctConcat(TestCentersIds() + TestGuardsIds() + TestForwardsIds(), TestFlexIds() + TestReserveIds());
  }

  lemma TestPartsMembers(p: Player)
    ensures p in TestPlayers() <==>
      p in TestCenters() || p in TestGuards() || p in TestForwards() || p in TestFlex() || p in TestReserve()
  {
  }

  // The sorted candidate pools of the sample roster.

  /** The players of the sample roster listing "C", in comparator order. */
  function TestPoolC(): (r: seq<Player>) {
    [TestCenters()[0], TestCenters()[1], TestFlex()[0], TestReserve()[5]]
  }

  function TestPoolCIds(): (r: seq<string>) {
    ["1647481", "2152455", "1231870", "2153012"]
  }

  lemma TestPoolCFacts()
    ensures AllIds(TestPoolC()) == TestPoolCIds()
    ensures StrictOrder(TestPoolC())
    ensures forall p :: p in TestPoolC() ==> p in TestPlayers() && "C" in p.positions
  {
    var q := TestPoolC();
    var r := AllIds(q);
    assert r[0] == q[0].id == "1647481";
    assert r[1] == q[1].id == "2152455";
    assert r[2] == q[2].id == "1231870";
    assert r[3] == q[3].id == "2153012";
    assert r == TestPoolCIds();
    TestPoolCOrder();
    TestPoolCMembers();
  }

  lemma TestPoolCOrder()
    ensures StrictOrder(TestPoolC())
  {
    var q := TestPoolC();
    assert Before(q[0], q[1]);
    assert Before(q[1], q[2]);
    assert Before(q[2], q[3]);
    ChainOrder(q);
  }

  lemma TestPoolCMembers()
    ensures forall p :: p in TestPoolC() ==> p in TestPlayers() && "C" in p.positions
  {
    forall p | p in TestPoolC() ensures p in TestPlayers() {
      TestPartsMembers(p);
    }
  }

  lemma TestPoolCFromCenters()
    ensures forall p :: p in TestCenters() && "C" in p.positions ==> p.id in TestPoolCIds()
  {
  }

  lemma TestPoolCFromGuards()
    ensures forall p :: p in TestGuards() && "C" in p.positions ==> p.id in TestPoolCIds()
  {
  }

  lemma TestPoolCFromForwards()
    ensures forall p :: p in TestForwards() && "C" in p.positions ==> p.id in TestPoolCIds()
  {
  }

  lemma TestPoolCFromFlex()
    ensures forall p :: p in TestFlex() && "C" in p.positions ==> p.id in TestPoolCIds()
  {
  }

  lemma TestPoolCFromReserve()
    ensures forall p :: p in TestReserve() && "C" in p.positions ==> p.id in TestPoolCIds()
  {
  }

  lemma TestSortedPoolC()
    ensures SortedPoolOf(TestPlayers(), "C") == TestPoolCIds()
  {
    TestIdsUnique();
    TestPoolCFacts();
    TestPoolCFromCenters();
    TestPoolCFromGuards();
    TestPoolCFromForwards();
    TestPoolCFromFlex();
    TestPoolCFromReserve();
    forall p | p in TestPlayers() && "C" in p.positions ensures p.id in AllIds(TestPoolC()) {
      TestPartsMembers(p);
    }
    SortedPoolIs(TestPlayers(), "C", TestPoolC());
  }

  /** The players of the sample roster listing "G", in comparator order. */
  function TestPoolG(): (r: seq<Player>) {
    [TestGuards()[0], TestGuards()[1], TestGuards()[2], TestGuards()[3], TestFlex()[1], TestReserve()[1], TestReserve()[4], TestReserve()[6], TestReserve()[7]]
  }

  function TestPoolGIds(): (r: seq<string>) {
    ["2135526", "2355022", "1646202", "1622555", "2842761", "555988", "1622501", "2202574", "1113178"]
  }

  lemma TestPoolGFacts()
    ensures AllIds(TestPoolG()) == TestPoolGIds()
    ensures StrictOrder(TestPoolG())
    ensures forall p :: p in TestPoolG() ==> p in TestPlayers() && "G" in p.positions
  {
    var q := TestPoolG();
    var r := AllIds(q);
    assert r[0] == q[0].id == "2135526";
    assert r[1] == q[1].id == "2355022";
    assert r[2] == q[2].id == "1646202";
    assert r[3] == q[3].id == "1622555";
    assert r[4] == q[4].id == "2842761";
    assert r[5] == q[5].id == "555988";
    assert r[6] == q[6].id == "1622501";
    assert r[7] == q[7].id == "2202574";
    assert r[8] == q[8].id == "1113178";
    assert r == TestPoolGIds();
    TestPoolGOrder();
    TestPoolGMembers();
  }

  lemma TestPoolGOrder()
    ensures StrictOrder(TestPoolG())
  {
    var q := TestPoolG();
    assert Before(q[0], q[1]);
    assert Before(q[1], q[2]);
    assert Before(q[2], q[3]);
    assert Before(q[3], q[4]);
    assert Before(q[4], q[5]);
    assert Before(q[5], q[6]);
    assert Before(q[6], q[7]);
    assert Before(q[7], q[8]);
    ChainOrder(q);
  }

  lemma TestPoolGMembers()
    ensures forall p :: p in TestPoolG() ==> p in TestPlayers() && "G" in p.positions
  {
    forall p | p in TestPoolG() ensures p in TestPlayers() {
      TestPartsMembers(p);
    }
  }

  lemma TestPoolGFromCenters()
    ensures forall p :: p in TestCenters() && "G" in p.positions ==> p.id in TestPoolGIds()
  {
  }

  lemma TestPoolGFromGuards()
    ensures forall p :: p in TestGuards() && "G" in p.positions ==> p.id in TestPoolGIds()
  {
  }

  lemma TestPoolGFromForwards()
    ensures forall p :: p in TestForwards() && "G" in p.positions ==> p.id in TestPoolGIds()
  {
  }

  lemma TestPoolGFromFlex()
    ensures forall p :: p in TestFlex() && "G" in p.positions ==> p.id in TestPoolGIds()
  {
  }

  lemma TestPoolGFromReserve()
    ensures forall p :: p in TestReserve() && "G" in p.positions ==> p.id in TestPoolGIds()
  {
  }

  lemma TestSortedPoolG()
    ensures SortedPoolOf(TestPlayers(), "G") == TestPoolGIds()
  {
    TestIdsUnique();
    TestPoolGFacts();
    TestPoolGFromCenters();
    TestPoolGFromGuards();
    TestPoolGFromForwards();
    TestPoolGFromFlex();
    TestPoolGFromReserve();
    forall p | p in TestPlayers() && "G" in p.positions ensures p.id in AllIds(TestPoolG()) {
      TestPartsMembers(p);
    }
    SortedPoolIs(TestPlayers(), "G", TestPoolG());
  }

  /** The players of the sample roster listing "F", in comparator order. */
  function TestPoolF(): (r: seq<Player>) {
    [TestForwards()[0], TestForwards()[1], TestForwards()[2], TestForwards()[3], TestFlex()[1], TestReserve()[0], TestReserve()[2], TestReserve()[3], TestReserve()[4]]
  }

  function TestPoolFIds(): (r: seq<string>) {
    ["2135532", "2135570", "2106818", "1905196", "2842761", "1992781", "1831130", "1113157", "1622501"]
  }

  lemma TestPoolFFacts()
    ensures AllIds(TestPoolF()) == TestPoolFIds()
    ensures StrictOrder(TestPoolF())
    ensures forall p :: p in TestPoolF() ==> p in TestPlayers() && "F" in p.positions
  {
    var q := TestPoolF();
    var r := AllIds(q);
    assert r[0] == q[0].id == "2135532";
    assert r[1] == q[1].id == "2135570";
    assert r[2] == q[2].id == "2106818";
    assert r[3] == q[3].id == "1905196";
    assert r[4] == q[4].id == "2842761";
    assert r[5] == q[5].id == "1992781";
    assert r[6] == q[6].id == "1831130";
    assert r[7] == q[7].id == "1113157";
    assert r[8] == q[8].id == "1622501";
    assert r == TestPoolFIds();
    TestPoolFOrder();
    TestPoolFMembers();
  }

  lemma TestPoolFOrder()
    ensures StrictOrder(TestPoolF())
  {
    var q := TestPoolF();
    assert Before(q[0], q[1]);
    assert Before(q[1], q[2]);
    assert Before(q[2], q[3]);
    assert Before(q[3], q[4]);
    assert Before(q[4], q[5]);
    assert Before(q[5], q[6]);
    assert Before(q[6], q[7]);
    assert Before(q[7], q[8]);
    ChainOrder(q);
  }

  lemma TestPoolFMembers()
    ensures forall p :: p in TestPoolF() ==> p in TestPlayers() && "F" in p.positions
  {
    forall p | p in TestPoolF() ensures p in TestPlayers() {
      TestPartsMembers(p);
    }
  }

  lemma TestPoolFFromCenters()
    ensures forall p :: p in TestCenters() && "F" in p.positions ==> p.id in TestPoolFIds()
  {
  }

  lemma TestPoolFFromGuards()
    ensures forall p :: p in TestGuards() && "F" in p.positions ==> p.id in TestPoolFIds()
  {
  }

  lemma TestPoolFFromForwards()
    ensures forall p :: p in TestForwards() && "F" in p.positions ==> p.id in TestPoolFIds()
  {
  }

  lemma TestPoolFFromFlex()
    ensures forall p :: p in TestFlex() && "F" in p.positions ==> p.id in TestPoolFIds()
  {
  }

  lemma TestPoolFFromReserve()
    ensures forall p :: p in TestReserve() && "F" in p.positions ==> p.id in TestPoolFIds()
  {
  }

  lemma TestSortedPoolF()
    ensures SortedPoolOf(TestPlayers(), "F") == TestPoolFIds()
  {
    TestIdsUnique();
    TestPoolFFacts();
    TestPoolFFromCenters();
    TestPoolFFromGuards();
    TestPoolFFromForwards();
    TestPoolFFromFlex();
    TestPoolFFromReserve();
    forall p | p in TestPlayers() && "F" in p.positions ensures p.id in AllIds(TestPoolF()) {
      TestPartsMembers(p);
    }
    SortedPoolIs(TestPlayers(), "F", TestPoolF());
  }

  // The picks.

  /** The ids the centre, guard and forward slots are meant to take. */
  function TestSlotIds(): (r: seq<string>) {
    TestCentersIds() + TestGuardsIds() + TestForwardsIds()
  }

  lemma TestCenterPicks()
    requires UniqueIds(TestPlayers())
    ensures CenterIds(TestPlayers()) == TestCentersIds()
  {
    TestSortedPoolC();
  }

  lemma TestPoolGUntaken()
    ensures forall x :: x in TestPoolGIds() ==> x !in TestCentersIds()
  {
  }

  lemma TestPoolFUntaken()
    ensures forall x :: x in TestPoolFIds() ==> x !in TestCentersIds() + TestGuardsIds()
  {
  }

  lemma TestGuardPicks()
    requires UniqueIds(TestPlayers())
    ensures GuardIds(TestPlayers()) == TestGuardsIds()
  {
    TestCenterPicks();
    TestSortedPoolG();
    TestPoolGUntaken();
    FreeKeepsAll(TestPoolGIds(), Elems(TestCentersIds()));
  }

  lemma TestForwardPicks()
    requires UniqueIds(TestPlayers())
    ensures ForwardIds(TestPlayers()) == TestForwardsIds()
  {
    TestCenterPicks();
    TestGuardPicks();
    TestSortedPoolF();
    TestPoolFUntaken();
    FreeKeepsAll(TestPoolFIds(), Elems(TestCentersIds() + TestGuardsIds()));
  }

  lemma TestRestFacts()
    ensures AllIds(TestFlex() + TestReserve()) == TestFlexIds() + TestReserveIds()
    ensures StrictOrder(TestFlex() + TestReserve())
    ensures forall p :: p in TestFlex() + TestReserve() ==> p in TestPlayers()
  {
    TestFlexAllIds();
    TestReserveAllIds();
    AllIdsAppend(TestFlex(), TestReserve());
    TestRestOrder();
    TestRestMembers();
  }

  lemma TestRestOrder()
    ensures StrictOrder(TestFlex() + TestReserve())
  {
    var q := TestFlex() + TestReserve();
    assert Before(q[0], q[1]);
    assert Before(q[1], q[2]);
    assert Before(q[2], q[3]);
    assert Before(q[3], q[4]);
    assert Before(q[4], q[5]);
    assert Before(q[5], q[6]);
    assert Before(q[6], q[7]);
    assert Before(q[7], q[8]);
    assert Before(q[8], q[9]);
    ChainOrder(q);
  }

  lemma TestRestMembers()
    ensures forall p :: p in TestFlex() + TestReserve() ==> p in TestPlayers()
  {
    forall p | p in TestFlex() + TestReserve() ensures p in TestPlayers() {
      TestPartsMembers(p);
    }
  }

  lemma TestPartsInRoster()
    ensures forall p :: p in TestCenters() ==> p in TestPlayers()
    ensures forall p :: p in TestGuards() ==> p in TestPlayers()
    ensures forall p :: p in TestForwards() ==> p in TestPlayers()
    ensures forall p :: p in TestFlex() ==> p in TestPlayers()
    ensures forall p :: p in TestReserve() ==> p in TestPlayers()
  {
  }

  lemma TestRestIdsUntaken()
    ensures forall x :: x in TestFlexIds() + TestReserveIds() ==> x !in Elems(TestSlotIds())
  {
    TestIdsApart();
  }

  lemma TestRestOffered()
    ensures forall p :: p in TestFlex() + TestReserve() ==> p.id !in Elems(TestSlotIds())
  {
    TestRestFacts();
    TestRestIdsUntaken();
    forall p | p in TestFlex() + TestReserve() ensures p.id in TestFlexIds() + TestReserveIds() {
      assert p.id in AllIds(TestFlex() + TestReserve());
    }
  }

  lemma TestSlotsTaken()
    ensures forall p :: p in TestCenters() + TestGuards() + TestForwards() ==> p.id in Elems(TestSlotIds())
  {
    TestCentersAllIds();
    TestGuardsAllIds();
    TestForwardsAllIds();
    AllIdsAppend(TestCenters(), TestGuards());
    AllIdsAppend(TestCenters() + TestGuards(), TestForwards());
    forall p | p in TestCenters() + TestGuards() + TestForwards() ensures p.id in TestSlotIds() {
      assert p.id in AllIds(TestCenters() + TestGuards() + TestForwards());
    }
  }

  lemma TestRestComplete()
    ensures forall p :: p in TestPlayers() && p.id !in Elems(TestSlotIds()) ==> p.id in AllIds(TestFlex() + TestReserve())
  {
    TestSlotsTaken();
    forall p | p in TestPlayers() && p.id !in Elems(TestSlotIds()) ensures p.id in AllIds(TestFlex() + TestReserve()) {
      assert p in TestFlex() + TestReserve() by {
        TestPartsMembers(p);
      }
    }
  }

  /** After the slots for centres, guards and forwards, the sorted flex
      pool still offers the flex players and then the reserve. */
  lemma TestFlexRest()
    requires UniqueIds(TestPlayers())
    ensures Free(SortedFlex(TestPlayers()), Elems(TestSlotIds())) == TestFlexIds() + TestReserveIds()
  {
    TestRestFacts();
    TestRestOffered();
    TestRestComplete();
    FreeFlexIs(TestPlayers(), Elems(TestSlotIds()), TestFlex() + TestReserve());
  }

  lemma TestFlexPicks()
    requires UniqueIds(TestPlayers())
    ensures FlexIds(TestPlayers()) == TestFlexIds()
  {
    TestCenterPicks();
    TestGuardPicks();
    TestForwardPicks();
    TestFlexRest();
    var ps := TestPlayers();
    assert CenterIds(ps) + GuardIds(ps) + ForwardIds(ps) == TestSlotIds();
    TestFlexPrefix();
  }

  lemma TestFlexPrefix()
    ensures Prefix(TestFlexIds() + TestReserveIds(), 2) == TestFlexIds()
  {
  }

  lemma TestReserveApart()
    ensures forall x :: x in TestReserveIds() ==> x !in Elems(TestFlexIds())
    ensures forall x :: x in TestFlexIds() ==> x in Elems(TestFlexIds())
  {
  }

  lemma TestReservePicks()
    requires UniqueIds(TestPlayers())
    ensures ReserveIds(TestPlayers()) == TestReserveIds()
  {
    var ps := TestPlayers();
    TestCenterPicks();
    TestGuardPicks();
    TestForwardPicks();
    TestFlexPicks();
    TestFlexRest();
    TestReserveApart();
    ElemsAppend(TestSlotIds(), TestFlexIds());
    FreeTwice(SortedFlex(ps), Elems(TestSlotIds()), Elems(TestFlexIds()));
    FreeAppend(TestFlexIds(), TestReserveIds(), Elems(TestFlexIds()));
    FreeDropsAll(TestFlexIds(), Elems(TestFlexIds()));
    FreeKeepsAll(TestReserveIds(), Elems(TestFlexIds()));
  }

  /** The sample roster, flattened and allocated, is the sample roster:
      Gasol and Kennard take the flex slots and the reserve stays in
      comparator order. */
  lemma TestRosterReproduced()
    ensures Allocate(TestPlayers()) == TestRoster()
  {
    var ps := TestPlayers();
    TestIdsUnique();
    AllocatePicks(ps);
    TestCenterPicks();
    TestGuardPicks();
    TestForwardPicks();
    TestFlexPicks();
    TestReservePicks();
    TestCentersAllIds();
    TestGuardsAllIds();
    TestForwardsAllIds();
    TestFlexAllIds();
    TestReserveAllIds();
    TestPartsInRoster();
    LookUpRoster(ps, TestCenters());
    LookUpRoster(ps, TestGuards());
    LookUpRoster(ps, TestForwards());
    LookUpRoster(ps, TestFlex());
    LookUpRoster(ps, TestReserve());
  }
}
