/** What `calculateLineup` guarantees, proved about `Model.Allocate`: the
    lineup is a partition of the roster, no slot is over capacity, every
    slotted player is eligible for the slot, every part is in comparator
    order, slots are filled whenever a candidate is left, guards are chosen
    before forwards, and the reserve is exactly who was not placed. */
module ModelProofs {
  import opened Seqs
  import opened Model

  function Min(a: int, b: int): (m: int) {
    if a <= b then a else b
  }

  /** The ids of a group of players. */
  ghost function IdSet(ps: seq<Player>): (r: set<string>) {
    set p | p in ps :: p.id
  }

  // ---------------------------------------------------------------------
  // The id dictionary

  /** Every entry of the dictionary is a roster player filed under its own
      id, and the keys are exactly the roster's ids. */
  lemma {:induction false} ByIdEntries(players: seq<Player>)
    ensures forall x :: x in ById(players) ==> ById(players)[x].id == x && ById(players)[x] in players
    ensures forall x :: x in ById(players) <==> x in AllIds(players)
  {
    if players != [] {
      var init, p := players[..|players| - 1], players[|players| - 1];
      assert players == init + [p];
      ByIdEntries(init);
      assert AllIds(players) == AllIds(init) + [p.id];
    }
  }

  lemma UniqueInit(players: seq<Player>)
    requires players != [] && UniqueIds(players)
    ensures UniqueIds(players[..|players| - 1])
    ensures players[|players| - 1].id !in AllIds(players[..|players| - 1])
  {
    var init := players[..|players| - 1];
    assert AllIds(players) == AllIds(init) + [players[|players| - 1].id];
    DistinctSplit(AllIds(init), [players[|players| - 1].id]);
  }

  /** With unique ids the dictionary finds every roster player. */
  lemma {:induction false} ByIdFinds(players: seq<Player>)
    requires UniqueIds(players)
    ensures forall p :: p in players ==> p.id in ById(players) && ById(players)[p.id] == p
  {
    if players != [] {
      var init, last := players[..|players| - 1], players[|players| - 1];
      assert players == init + [last];
      UniqueInit(players);
      ByIdFinds(init);
      forall p | p in players ensures p.id in ById(players) && ById(players)[p.id] == p {
        if p != last {
          assert p in init;
          var i :| 0 <= i < |init| && init[i] == p;
          assert AllIds(init)[i] == p.id;
        }
      }
    }
  }

  /** With unique ids no player occurs twice on the roster. */
  lemma UniquePlayers(players: seq<Player>)
    requires UniqueIds(players)
    ensures Distinct(players)
  {
    forall i, j | 0 <= i < j < |players| ensures players[i] != players[j] {
      assert AllIds(players)[i] == players[i].id && AllIds(players)[j] == players[j].id;
    }
  }

  /** With unique ids, a player's id is in the pool of a position exactly
      when the player lists that position, and a pool holds no id twice. */
  lemma {:induction false} PoolMembers(players: seq<Player>, pos: string)
    requires UniqueIds(players)
    ensures forall x :: x in Pool(players, pos) <==> x in ById(players) && pos in ById(players)[x].positions
    ensures Distinct(Pool(players, pos))
  {
    if players != [] {
      var init, p := players[..|players| - 1], players[|players| - 1];
      UniqueInit(players);
      PoolMembers(init, pos);
      ByIdEntries(init);
      var e := if pos in p.positions then [p.id] else [];
      assert Pool(players, pos) == Pool(init, pos) + e;
      forall x ensures x in Pool(players, pos) <==> x in ById(players) && pos in ById(players)[x].positions {
        if x == p.id {
          assert x !in ById(init);
          assert x !in Pool(init, pos);
        }
      }
      DistinctConcat(Pool(init, pos), e);
    }
  }

  /** Whatever the ids, a position's pool holds exactly the ids of the
      players listing that position, and the flex pool every player's id. */
  lemma {:induction false} PoolHolders(players: seq<Player>, pos: string)
    ensures forall x :: x in Pool(players, pos) <==> exists p :: p in players && p.id == x && pos in p.positions
    ensures forall p :: p in players ==> p.id in AllIds(players)
  {
    if players != [] {
      var init, last := players[..|players| - 1], players[|players| - 1];
      assert players == init + [last];
      PoolHolders(init, pos);
      forall x | x in Pool(players, pos) ensures exists p :: p in players && p.id == x && pos in p.positions {
        if x in Pool(init, pos) {
          var p :| p in init && p.id == x && pos in p.positions;
          assert p in players;
        } else {
          assert last in players;
        }
      }
    }
    forall p | p in players ensures p.id in AllIds(players) {
      var i :| 0 <= i < |players| && players[i] == p;
      assert AllIds(players)[i] == p.id;
    }
  }

  // ---------------------------------------------------------------------
  // The sorted pools

  /** The candidate pool of a position after `calculateLineup` sorts it. */
  ghost function SortedPoolOf(players: seq<Player>, pos: string): (r: seq<string>)
    ensures Keyed(r, ById(players))
  {
    PoolKeyed(players, pos);
    SortIds(Pool(players, pos), ById(players))
  }

  /** The flex pool after `calculateLineup` sorts it. */
  ghost function SortedFlex(players: seq<Player>): (r: seq<string>)
    ensures Keyed(r, ById(players))
  {
    AllIdsKeyed(players);
    SortIds(AllIds(players), ById(players))
  }

  lemma SortedPoolFacts(players: seq<Player>, pos: string)
    requires UniqueIds(players)
    ensures Distinct(SortedPoolOf(players, pos))
    ensures SortedIds(SortedPoolOf(players, pos), ById(players))
    ensures forall x :: x in SortedPoolOf(players, pos) <==> x in Pool(players, pos)
    ensures |SortedPoolOf(players, pos)| == |Pool(players, pos)|
    ensures multiset(SortedPoolOf(players, pos)) == multiset(Pool(players, pos))
  {
    PoolKeyed(players, pos);
    var s := SortedPoolOf(players, pos);
    SortIdsPermutation(Pool(players, pos), ById(players));
    SortIdsSorted(Pool(players, pos), ById(players));
    PoolMembers(players, pos);
    DistinctPermutation(Pool(players, pos), s);
    forall x ensures x in s <==> x in Pool(players, pos) {
      assert x in s <==> x in multiset(s);
    }
    assert |s| == |multiset(s)|;
  }

  lemma SortedFlexFacts(players: seq<Player>)
    requires UniqueIds(players)
    ensures Distinct(SortedFlex(players))
    ensures SortedIds(SortedFlex(players), ById(players))
    ensures multiset(SortedFlex(players)) == multiset(AllIds(players))
  {
    AllIdsKeyed(players);
    SortIdsPermutation(AllIds(players), ById(players));
    SortIdsSorted(AllIds(players), ById(players));
    DistinctPermutation(AllIds(players), SortedFlex(players));
  }

  // ---------------------------------------------------------------------
  // Filling a slot

  /** With a distinct pool, the id `assignPlayer` picks is the first one
      not yet taken, and taking it leaves the rest of the untaken ids. */
  lemma {:induction false} FirstFreeIsHead(src: seq<string>, taken: set<string>)
    requires Distinct(src)
    ensures FirstFree(src, taken) == |src| <==> Free(src, taken) == []
    ensures FirstFree(src, taken) < |src| ==>
      Free(src, taken)[0] == src[FirstFree(src, taken)] &&
      Free(src, taken + {src[FirstFree(src, taken)]}) == Free(src, taken)[1..]
  {
    if src != [] {
      var tail := src[1..];
      DistinctTail(src);
      if src[0] !in taken {
        FreeIgnores(tail, taken, src[0]);
      } else {
        FirstFreeIsHead(tail, taken);
        var k := FirstFree(tail, taken);
        if k < |tail| {
          assert tail[k] == src[k + 1];
        }
      }
    }
  }

  /** The place `assignPlayer` stops at holds the first untaken id. */
  lemma {:induction false} FirstFreeHead(src: seq<string>, taken: set<string>)
    ensures FirstFree(src, taken) == |src| <==> Free(src, taken) == []
    ensures FirstFree(src, taken) < |src| ==> Free(src, taken)[0] == src[FirstFree(src, taken)]
  {
    if src != [] && src[0] in taken {
      FirstFreeHead(src[1..], taken);
    }
  }

  /** One `assignPlayer` call appends the player of the first id of the
      pool that is not taken and takes that id, and changes nothing when
      every id is taken. */
  lemma AssignFirstUntaken(src: seq<string>, byId: map<string, Player>, s: Slot)
    requires Keyed(src, byId)
    ensures Free(src, s.taken) == [] ==> Assign(src, byId, s) == s
    ensures Free(src, s.taken) != [] ==>
      Free(src, s.taken)[0] in byId &&
      Assign(src, byId, s) == Slot(s.dest + [byId[Free(src, s.taken)[0]]], s.taken + {Free(src, s.taken)[0]})
  {
    FirstFreeHead(src, s.taken);
  }

  lemma PrefixKeyed(ids: seq<string>, n: nat, byId: map<string, Player>)
    requires Keyed(ids, byId)
    ensures Keyed(Prefix(ids, n), byId)
  {
    forall i | 0 <= i < |Prefix(ids, n)| ensures Prefix(ids, n)[i] in byId {
      assert Prefix(ids, n)[i] == ids[i];
    }
  }

  /** `n` calls of `assignPlayer` on a distinct pool move the first `n`
      untaken ids of the pool, in pool order, into the slot. */
  lemma {:induction false} FillTakesFree(src: seq<string>, byId: map<string, Player>, n: nat, s: Slot)
    requires Keyed(src, byId) && Distinct(src)
    ensures Keyed(Prefix(Free(src, s.taken), n), byId)
    ensures Fill(src, byId, n, s)
         == Slot(s.dest + LookUp(byId, Prefix(Free(src, s.taken), n)),
                 s.taken + Elems(Prefix(Free(src, s.taken), n)))
  {
    var F := Free(src, s.taken);
    PrefixKeyed(F, n, byId);
    if n == 0 {
      assert Prefix(F, 0) == [];
    } else {
      FirstFreeIsHead(src, s.taken);
      var k := FirstFree(src, s.taken);
      var s1 := Assign(src, byId, s);
      FillTakesFree(src, byId, n - 1, s1);
      if k == |src| {
        assert Prefix(F, n) == [] == Prefix(F, n - 1);
      } else {
        PrefixCons(F, n);
        PrefixKeyed(F[1..], n - 1, byId);
        SlotCons(s.dest, s.taken, F[0], Prefix(F[1..], n - 1), byId);
      }
    }
  }

  lemma PrefixCons<T>(s: seq<T>, n: nat)
    requires s != [] && n > 0
    ensures Prefix(s, n) == [s[0]] + Prefix(s[1..], n - 1)
  {
  }

  /** Adding one player and then a run of players is adding them together. */
  lemma SlotCons(dest: seq<Player>, taken: set<string>, y: string, rest: seq<string>,
                 byId: map<string, Player>)
    requires y in byId && Keyed(rest, byId)
    ensures Keyed([y] + rest, byId)
    ensures Slot((dest + [byId[y]]) + LookUp(byId, rest), (taken + {y}) + Elems(rest))
         == Slot(dest + LookUp(byId, [y] + rest), taken + Elems([y] + rest))
  {
    LookUpAppend(byId, [y], rest);
    ElemsAppend([y], rest);
  }

  /** Each `assignPlayer` call adds at most one player to the slot. */
  lemma {:induction false} FillLength(src: seq<string>, byId: map<string, Player>, n: nat, s: Slot)
    requires Keyed(src, byId)
    ensures |Fill(src, byId, n, s).dest| <= |s.dest| + n
  {
    if n > 0 {
      FillLength(src, byId, n - 1, Assign(src, byId, s));
    }
  }

  // ---------------------------------------------------------------------
  // Looking ids up

  /** Filing every player under its own id. */
  ghost predicate OwnIds(byId: map<string, Player>) {
    forall x :: x in byId ==> byId[x].id == x
  }

  /** When every player is filed under its own id, looking up distinct ids
      gives distinct players, and a player is looked up exactly when its id
      is in the list and it is the player filed under that id. */
  lemma LookUpFacts(byId: map<string, Player>, ids: seq<string>)
    requires Keyed(ids, byId) && OwnIds(byId)
    ensures Distinct(ids) ==> Distinct(LookUp(byId, ids))
    ensures forall p :: p in LookUp(byId, ids) <==> p.id in ids && p.id in byId && byId[p.id] == p
  {
    var r := LookUp(byId, ids);
    forall p: Player | p.id in ids && p.id in byId && byId[p.id] == p ensures p in r {
      var i :| 0 <= i < |ids| && ids[i] == p.id;
      assert r[i] == p;
    }
  }

  lemma IdSetLookUp(byId: map<string, Player>, ids: seq<string>)
    requires Keyed(ids, byId) && OwnIds(byId)
    ensures IdSet(LookUp(byId, ids)) == Elems(ids)
  {
    var r := LookUp(byId, ids);
    forall x | x in ids ensures x in IdSet(r) {
      var i :| 0 <= i < |ids| && ids[i] == x;
      assert r[i] in r;
    }
  }

  lemma FreeSorted(s: seq<string>, taken: set<string>, byId: map<string, Player>)
    requires Keyed(s, byId) && SortedIds(s, byId)
    ensures SortedIds(Free(s, taken), byId)
  {
    SortedIdsAt(s, byId);
    SortedIdsAt(Free(s, taken), byId);
    if s != [] {
      var tail := s[1..];
      assert SortedIds(tail, byId) by {
        SortedIdsAt(tail, byId);
        forall i, j | 0 <= i < j < |tail| ensures Precedes(byId[tail[i]], byId[tail[j]]) {
          assert tail[i] == s[i + 1] && tail[j] == s[j + 1];
        }
      }
      FreeSorted(tail, taken, byId);
      SortedIdsAt(Free(tail, taken), byId);
      forall y | y in Free(tail, taken) ensures Precedes(byId[s[0]], byId[y]) {
        var j :| 0 <= j < |tail| && tail[j] == y;
        assert s[j + 1] == y;
      }
    }
  }

  lemma PrefixSorted(s: seq<string>, n: nat, byId: map<string, Player>)
    requires Keyed(s, byId) && SortedIds(s, byId)
    ensures Keyed(Prefix(s, n), byId) && SortedIds(Prefix(s, n), byId)
  {
    PrefixKeyed(s, n, byId);
    SortedIdsAt(s, byId);
    SortedIdsAt(Prefix(s, n), byId);
  }

  // ---------------------------------------------------------------------
  // The lineup, stated without loops

  ghost function CenterIds(players: seq<Player>): (r: seq<string>)
    ensures Keyed(r, ById(players))
  {
    PrefixKeyed(SortedPoolOf(players, "C"), 2, ById(players));
    Prefix(SortedPoolOf(players, "C"), 2)
  }

  ghost function GuardIds(players: seq<Player>): (r: seq<string>)
    ensures Keyed(r, ById(players))
  {
    var free := Free(SortedPoolOf(players, "G"), Elems(CenterIds(players)));
    PrefixKeyed(free, 4, ById(players));
    Prefix(free, 4)
  }

  ghost function ForwardIds(players: seq<Player>): (r: seq<string>)
    ensures Keyed(r, ById(players))
  {
    var free := Free(SortedPoolOf(players, "F"), Elems(CenterIds(players) + GuardIds(players)));
    PrefixKeyed(free, 4, ById(players));
    Prefix(free, 4)
  }

  ghost function FlexIds(players: seq<Player>): (r: seq<string>)
    ensures Keyed(r, ById(players))
  {
    var free := Free(SortedFlex(players),
                     Elems(CenterIds(players) + GuardIds(players) + ForwardIds(players)));
    PrefixKeyed(free, 2, ById(players));
    Prefix(free, 2)
  }

  ghost function PlacedIds(players: seq<Player>): (r: seq<string>)
    ensures Keyed(r, ById(players))
  {
    CenterIds(players) + GuardIds(players) + ForwardIds(players) + FlexIds(players)
  }

  ghost function ReserveIds(players: seq<Player>): (r: seq<string>)
    ensures Keyed(r, ById(players))
  {
    Free(SortedFlex(players), Elems(PlacedIds(players)))
  }

  lemma PoolsDistinct(players: seq<Player>)
    requires UniqueIds(players)
    ensures Distinct(SortedPoolOf(players, "C")) && Distinct(SortedPoolOf(players, "G"))
    ensures Distinct(SortedPoolOf(players, "F")) && Distinct(SortedFlex(players))
  {
    SortedPoolFacts(players, "C");
    SortedPoolFacts(players, "G");
    SortedPoolFacts(players, "F");
    SortedFlexFacts(players);
  }

  // The taken sets after each group of `assignPlayer` calls.
  ghost function TakenAfterCenters(players: seq<Player>): (r: set<string>) {
    Fill(SortedPoolOf(players, "C"), ById(players), 2, Slot([], {})).taken
  }

  ghost function TakenAfterGuards(players: seq<Player>): (r: set<string>) {
    Fill(SortedPoolOf(players, "G"), ById(players), 4, Slot([], TakenAfterCenters(players))).taken
  }

  ghost function TakenAfterForwards(players: seq<Player>): (r: set<string>) {
    Fill(SortedPoolOf(players, "F"), ById(players), 4, Slot([], TakenAfterGuards(players))).taken
  }

  ghost function TakenAfterFlex(players: seq<Player>): (r: set<string>) {
    Fill(SortedFlex(players), ById(players), 2, Slot([], TakenAfterForwards(players))).taken
  }

  /** `Allocate` group by group. */
  lemma AllocateSteps(players: seq<Player>)
    ensures Allocate(players)
         == Lineup(Fill(SortedPoolOf(players, "C"), ById(players), 2, Slot([], {})).dest,
                   Fill(SortedPoolOf(players, "G"), ById(players), 4, Slot([], TakenAfterCenters(players))).dest,
                   Fill(SortedPoolOf(players, "F"), ById(players), 4, Slot([], TakenAfterGuards(players))).dest,
                   Fill(SortedFlex(players), ById(players), 2, Slot([], TakenAfterForwards(players))).dest,
                   LookUp(ById(players), Free(SortedFlex(players), TakenAfterFlex(players))))
  {
  }

  lemma CenterStep(players: seq<Player>)
    requires UniqueIds(players)
    ensures Fill(SortedPoolOf(players, "C"), ById(players), 2, Slot([], {}))
         == Slot(LookUp(ById(players), CenterIds(players)), Elems(CenterIds(players)))
  {
    PoolsDistinct(players);
    FillTakesFree(SortedPoolOf(players, "C"), ById(players), 2, Slot([], {}));
    FreeNothing(SortedPoolOf(players, "C"));
  }

  lemma GuardStep(players: seq<Player>)
    requires UniqueIds(players)
    ensures Fill(SortedPoolOf(players, "G"), ById(players), 4, Slot([], TakenAfterCenters(players)))
         == Slot(LookUp(ById(players), GuardIds(players)), Elems(CenterIds(players) + GuardIds(players)))
  {
    PoolsDistinct(players);
    CenterStep(players);
    FillTakesFree(SortedPoolOf(players, "G"), ById(players), 4, Slot([], TakenAfterCenters(players)));
    ElemsAppend(CenterIds(players), GuardIds(players));
  }

  lemma ForwardStep(players: seq<Player>)
    requires UniqueIds(players)
    ensures Fill(SortedPoolOf(players, "F"), ById(players), 4, Slot([], TakenAfterGuards(players)))
         == Slot(LookUp(ById(players), ForwardIds(players)),
                 Elems(CenterIds(players) + GuardIds(players) + ForwardIds(players)))
  {
    PoolsDistinct(players);
    GuardStep(players);
    FillTakesFree(SortedPoolOf(players, "F"), ById(players), 4, Slot([], TakenAfterGuards(players)));
    ElemsAppend(CenterIds(players) + GuardIds(players), ForwardIds(players));
  }

  lemma FlexStep(players: seq<Player>)
    requires UniqueIds(players)
    ensures Fill(SortedFlex(players), ById(players), 2, Slot([], TakenAfterForwards(players)))
         == Slot(LookUp(ById(players), FlexIds(players)), Elems(PlacedIds(players)))
  {
    PoolsDistinct(players);
    ForwardStep(players);
    FillTakesFree(SortedFlex(players), ById(players), 2, Slot([], TakenAfterForwards(players)));
    ElemsAppend(CenterIds(players) + GuardIds(players) + ForwardIds(players), FlexIds(players));
  }

  /** With unique ids, `calculateLineup` slots the first two centre
      candidates, then the first four guard candidates not yet taken, then
      the first four such forward candidates, then the first two such
      players of the flex pool, and reserves the rest of the flex pool. */
  lemma AllocatePicks(players: seq<Player>)
    requires UniqueIds(players)
    ensures Allocate(players)
         == Lineup(LookUp(ById(players), CenterIds(players)), LookUp(ById(players), GuardIds(players)),
                   LookUp(ById(players), ForwardIds(players)), LookUp(ById(players), FlexIds(players)),
                   LookUp(ById(players), ReserveIds(players)))
  {
    AllocateSteps(players);
    CenterStep(players);
    GuardStep(players);
    ForwardStep(players);
    FlexStep(players);
  }

  /** No id is placed twice, and every placed id is on the roster. */
  lemma PlacedFacts(players: seq<Player>)
    requires UniqueIds(players)
    ensures Distinct(PlacedIds(players))
    ensures forall x :: x in PlacedIds(players) ==> x in SortedFlex(players)
  {
    var SC, SG, SF, SX := SortedPoolOf(players, "C"), SortedPoolOf(players, "G"),
                          SortedPoolOf(players, "F"), SortedFlex(players);
    PoolsDistinct(players);
    var cI, gI, fI, xI := CenterIds(players), GuardIds(players), ForwardIds(players), FlexIds(players);
    PrefixMembers(SC, 2);
    PrefixMembers(Free(SG, Elems(cI)), 4);
    PrefixMembers(Free(SF, Elems(cI + gI)), 4);
    PrefixMembers(Free(SX, Elems(cI + gI + fI)), 2);
    PrefixDistinct(SC, 2);
    FreeDistinct(SG, Elems(cI));
    PrefixDistinct(Free(SG, Elems(cI)), 4);
    DistinctConcat(cI, gI);
    FreeDistinct(SF, Elems(cI + gI));
    PrefixDistinct(Free(SF, Elems(cI + gI)), 4);
    DistinctConcat(cI + gI, fI);
    FreeDistinct(SX, Elems(cI + gI + fI));
    PrefixDistinct(Free(SX, Elems(cI + gI + fI)), 2);
    DistinctConcat(cI + gI + fI, xI);

    SortedFlexFacts(players);
    ByIdEntries(players);
    forall y | y in PlacedIds(players) ensures y in SX {
      assert y in ById(players);
      assert y in multiset(AllIds(players));
    }
  }

  /** The reserve ids are the flex-pool ids nobody took, so together with
      the placed ids they are the roster's ids, each once. */
  lemma AllIdsOnce(players: seq<Player>)
    requires UniqueIds(players)
    ensures Distinct(PlacedIds(players) + ReserveIds(players))
    ensures forall x :: x in PlacedIds(players) + ReserveIds(players) <==> x in ById(players)
  {
    PlacedFacts(players);
    SortedFlexFacts(players);
    ByIdEntries(players);
    FreeDistinct(SortedFlex(players), Elems(PlacedIds(players)));
    DistinctConcat(PlacedIds(players), ReserveIds(players));
    forall x ensures x in SortedFlex(players) <==> x in AllIds(players) {
      assert x in SortedFlex(players) <==> x in multiset(SortedFlex(players));
    }
  }

  /** The five parts of the lineup, one after another. */
  function Parts(l: Lineup): (r: seq<Player>) {
    l.centers + l.guards + l.forwards + l.gfc + l.reserve
  }

  lemma PartsLookUp(players: seq<Player>)
    requires UniqueIds(players)
    ensures Keyed(PlacedIds(players) + ReserveIds(players), ById(players))
    ensures Parts(Allocate(players)) == LookUp(ById(players), PlacedIds(players) + ReserveIds(players))
  {
    var byId := ById(players);
    var cI, gI, fI, xI, rI := CenterIds(players), GuardIds(players), ForwardIds(players),
                              FlexIds(players), ReserveIds(players);
    AllocatePicks(players);
    LookUpAppend(byId, cI, gI);
    LookUpAppend(byId, cI + gI, fI);
    LookUpAppend(byId, cI + gI + fI, xI);
    LookUpAppend(byId, cI + gI + fI + xI, rI);
  }

  /** Partition: with unique ids, the five parts together hold every roster
      player exactly once. */
  lemma Partition(players: seq<Player>)
    requires UniqueIds(players)
    ensures multiset(Parts(Allocate(players))) == multiset(players)
    ensures Distinct(Parts(Allocate(players)))
  {
    var byId := ById(players);
    var ids := PlacedIds(players) + ReserveIds(players);
    PartsLookUp(players);
    AllIdsOnce(players);
    ByIdEntries(players);
    ByIdFinds(players);
    LookUpFacts(byId, ids);
    UniquePlayers(players);
    DistinctSameElems(Parts(Allocate(players)), players);
  }

  /** Capacity: each `assignPlayer` call adds at most one player, so the
      slots never exceed 2, 4, 4 and 2 players, whatever the input. */
  lemma Capacity(players: seq<Player>)
    ensures |Allocate(players).centers| <= 2 && |Allocate(players).guards| <= 4
    ensures |Allocate(players).forwards| <= 4 && |Allocate(players).gfc| <= 2
  {
    AllocateSteps(players);
    FillLength(SortedPoolOf(players, "C"), ById(players), 2, Slot([], {}));
    FillLength(SortedPoolOf(players, "G"), ById(players), 4, Slot([], TakenAfterCenters(players)));
    FillLength(SortedPoolOf(players, "F"), ById(players), 4, Slot([], TakenAfterGuards(players)));
    FillLength(SortedFlex(players), ById(players), 2, Slot([], TakenAfterForwards(players)));
  }

  lemma SlotEligible(players: seq<Player>, ids: seq<string>, pos: string)
    requires UniqueIds(players) && Keyed(ids, ById(players))
    requires forall x :: x in ids ==> x in SortedPoolOf(players, pos)
    ensures forall p :: p in LookUp(ById(players), ids) ==> pos in p.positions
  {
    ByIdEntries(players);
    LookUpFacts(ById(players), ids);
    SortedPoolFacts(players, pos);
    PoolMembers(players, pos);
  }

  /** Eligibility: with unique ids, centres list "C", guards list "G" and
      forwards list "F"; the flex slots take anyone. */
  lemma Eligibility(players: seq<Player>)
    requires UniqueIds(players)
    ensures forall p :: p in Allocate(players).centers ==> "C" in p.positions
    ensures forall p :: p in Allocate(players).guards ==> "G" in p.positions
    ensures forall p :: p in Allocate(players).forwards ==> "F" in p.positions
  {
    AllocatePicks(players);
    PrefixMembers(SortedPoolOf(players, "C"), 2);
    PrefixMembers(Free(SortedPoolOf(players, "G"), Elems(CenterIds(players))), 4);
    PrefixMembers(Free(SortedPoolOf(players, "F"), Elems(CenterIds(players) + GuardIds(players))), 4);
    SlotEligible(players, CenterIds(players), "C");
    SlotEligible(players, GuardIds(players), "G");
    SlotEligible(players, ForwardIds(players), "F");
  }

  lemma TakesInOrder(players: seq<Player>, src: seq<string>, taken: set<string>, n: nat)
    requires Keyed(src, ById(players)) && SortedIds(src, ById(players))
    ensures Keyed(Prefix(Free(src, taken), n), ById(players))
    ensures InOrder(LookUp(ById(players), Prefix(Free(src, taken), n)))
    ensures InOrder(LookUp(ById(players), Free(src, taken)))
  {
    FreeSorted(src, taken, ById(players));
    PrefixSorted(Free(src, taken), n, ById(players));
  }

  /** Order: with unique ids, every part of the lineup, the reserve
      included, is in comparator order. */
  lemma Order(players: seq<Player>)
    requires UniqueIds(players)
    ensures InOrder(Allocate(players).centers) && InOrder(Allocate(players).guards)
    ensures InOrder(Allocate(players).forwards) && InOrder(Allocate(players).gfc)
    ensures InOrder(Allocate(players).reserve)
  {
    AllocatePicks(players);
    var cI, gI, fI := CenterIds(players), GuardIds(players), ForwardIds(players);
    SortedPoolFacts(players, "C");
    SortedPoolFacts(players, "G");
    SortedPoolFacts(players, "F");
    SortedFlexFacts(players);
    TakesInOrder(players, SortedPoolOf(players, "C"), {}, 2);
    FreeNothing(SortedPoolOf(players, "C"));
    TakesInOrder(players, SortedPoolOf(players, "G"), Elems(cI), 4);
    TakesInOrder(players, SortedPoolOf(players, "F"), Elems(cI + gI), 4);
    TakesInOrder(players, SortedFlex(players), Elems(cI + gI + fI), 2);
    TakesInOrder(players, SortedFlex(players), Elems(PlacedIds(players)), 0);
  }

  lemma FreeLength(s: seq<string>, t: seq<string>, taken: set<string>)
    requires multiset(s) == multiset(t)
    ensures |Free(s, taken)| == |Free(t, taken)|
  {
    FreeMultiset(s, t, taken);
    assert |Free(s, taken)| == |multiset(Free(s, taken))|;
    assert |Free(t, taken)| == |multiset(Free(t, taken))|;
  }

  /** The players in the slots, as the ids of the pick sequences. */
  lemma PlacedIdSets(players: seq<Player>)
    requires UniqueIds(players)
    ensures IdSet(Allocate(players).centers) == Elems(CenterIds(players))
    ensures IdSet(Allocate(players).centers + Allocate(players).guards)
         == Elems(CenterIds(players) + GuardIds(players))
    ensures IdSet(Allocate(players).centers + Allocate(players).guards + Allocate(players).forwards)
         == Elems(CenterIds(players) + GuardIds(players) + ForwardIds(players))
    ensures IdSet(Allocate(players).centers + Allocate(players).guards + Allocate(players).forwards
                  + Allocate(players).gfc)
         == Elems(PlacedIds(players))
  {
    var byId := ById(players);
    var cI, gI, fI, xI := CenterIds(players), GuardIds(players), ForwardIds(players), FlexIds(players);
    AllocatePicks(players);
    ByIdEntries(players);
    LookUpAppend(byId, cI, gI);
    LookUpAppend(byId, cI + gI, fI);
    LookUpAppend(byId, cI + gI + fI, xI);
    IdSetLookUp(byId, cI);
    IdSetLookUp(byId, cI + gI);
    IdSetLookUp(byId, cI + gI + fI);
    IdSetLookUp(byId, PlacedIds(players));
  }

  /** Fill when possible: with unique ids, each slot receives as many
      players as its capacity allows and its pool still has untaken. */
  lemma FillWhenPossible(players: seq<Player>)
    requires UniqueIds(players)
    ensures var l := Allocate(players);
      && |l.centers| == Min(2, |Pool(players, "C")|)
      && |l.guards| == Min(4, |Free(Pool(players, "G"), IdSet(l.centers))|)
      && |l.forwards| == Min(4, |Free(Pool(players, "F"), IdSet(l.centers + l.guards))|)
      && |l.gfc| == Min(2, |Free(AllIds(players), IdSet(l.centers + l.guards + l.forwards))|)
  {
    var cI, gI, fI := CenterIds(players), GuardIds(players), ForwardIds(players);
    AllocatePicks(players);
    PlacedIdSets(players);
    SortedPoolFacts(players, "C");
    SortedPoolFacts(players, "G");
    SortedPoolFacts(players, "F");
    SortedFlexFacts(players);
    FreeLength(SortedPoolOf(players, "G"), Pool(players, "G"), Elems(cI));
    FreeLength(SortedPoolOf(players, "F"), Pool(players, "F"), Elems(cI + gI));
    FreeLength(SortedFlex(players), AllIds(players), Elems(cI + gI + fI));
  }

  lemma ShortTakesAll(players: seq<Player>, src: seq<string>, taken: set<string>, n: nat, p: Player)
    requires UniqueIds(players) && Keyed(src, ById(players))
    requires Keyed(Prefix(Free(src, taken), n), ById(players))
    requires |Prefix(Free(src, taken), n)| < n
    requires p in players && p.id in src && p.id !in taken
    ensures p in LookUp(ById(players), Prefix(Free(src, taken), n))
  {
    ByIdEntries(players);
    ByIdFinds(players);
    LookUpFacts(ById(players), Prefix(Free(src, taken), n));
  }

  /** The id of a roster player listing `pos` is in the sorted pool. */
  lemma StillOffered(players: seq<Player>, pos: string, p: Player)
    requires UniqueIds(players)
    requires p in players && pos in p.positions
    ensures p.id in SortedPoolOf(players, pos)
  {
    SortedPoolFacts(players, pos);
    PoolMembers(players, pos);
    ByIdFinds(players);
  }

  /** A roster player not looked up from `ids` has an id not in `ids`. */
  lemma NotPlacedId(players: seq<Player>, ids: seq<string>, p: Player)
    requires UniqueIds(players) && Keyed(ids, ById(players))
    requires p in players && p !in LookUp(ById(players), ids)
    ensures p.id !in Elems(ids)
  {
    ByIdEntries(players);
    ByIdFinds(players);
    LookUpFacts(ById(players), ids);
  }

  lemma ShortCenters(players: seq<Player>)
    requires UniqueIds(players)
    ensures var l := Allocate(players);
      |l.centers| < 2 ==> forall p :: p in players && "C" in p.positions ==> p in l.centers
  {
    var l := Allocate(players);
    AllocatePicks(players);
    FreeNothing(SortedPoolOf(players, "C"));
    forall p | |l.centers| < 2 && p in players && "C" in p.positions ensures p in l.centers {
      StillOffered(players, "C", p);
      ShortTakesAll(players, SortedPoolOf(players, "C"), {}, 2, p);
    }
  }

  lemma ShortGuards(players: seq<Player>)
    requires UniqueIds(players)
    ensures var l := Allocate(players);
      |l.guards| < 4 ==> forall p :: p in players && "G" in p.positions && p !in l.centers ==> p in l.guards
  {
    var l := Allocate(players);
    AllocatePicks(players);
    var cI := CenterIds(players);
    forall p | |l.guards| < 4 && p in players && "G" in p.positions && p !in l.centers
      ensures p in l.guards
    {
      NotPlacedId(players, cI, p);
      StillOffered(players, "G", p);
      ShortTakesAll(players, SortedPoolOf(players, "G"), Elems(cI), 4, p);
    }
  }

  lemma ShortForwards(players: seq<Player>)
    requires UniqueIds(players)
    ensures var l := Allocate(players);
      |l.forwards| < 4 ==>
        forall p :: p in players && "F" in p.positions && p !in l.centers + l.guards ==> p in l.forwards
  {
    var l := Allocate(players);
    AllocatePicks(players);
    var cI, gI := CenterIds(players), GuardIds(players);
    LookUpAppend(ById(players), cI, gI);
    forall p | |l.forwards| < 4 && p in players && "F" in p.positions && p !in l.centers + l.guards
      ensures p in l.forwards
    {
      NotPlacedId(players, cI + gI, p);
      StillOffered(players, "F", p);
      ShortTakesAll(players, SortedPoolOf(players, "F"), Elems(cI + gI), 4, p);
    }
  }

  lemma ShortFlex(players: seq<Player>)
    requires UniqueIds(players)
    ensures var l := Allocate(players);
      |l.gfc| < 2 ==> forall p :: p in players && p !in l.centers + l.guards + l.forwards ==> p in l.gfc
  {
    var l := Allocate(players);
    AllocatePicks(players);
    var cI, gI, fI := CenterIds(players), GuardIds(players), ForwardIds(players);
    LookUpAppend(ById(players), cI, gI);
    LookUpAppend(ById(players), cI + gI, fI);
    SortedFlexFacts(players);
    ByIdEntries(players);
    ByIdFinds(players);
    forall p | |l.gfc| < 2 && p in players && p !in l.centers + l.guards + l.forwards
      ensures p in l.gfc
    {
      NotPlacedId(players, cI + gI + fI, p);
      assert p.id in multiset(SortedFlex(players));
      ShortTakesAll(players, SortedFlex(players), Elems(cI + gI + fI), 2, p);
    }
  }

  /** A slot left short holds every eligible player that was not already
      taken when it was filled. */
  lemma ShortSlotsTakeAll(players: seq<Player>)
    requires UniqueIds(players)
    ensures var l := Allocate(players);
      && (|l.centers| < 2 ==>
            forall p :: p in players && "C" in p.positions ==> p in l.centers)
      && (|l.guards| < 4 ==>
            forall p :: p in players && "G" in p.positions && p !in l.centers ==> p in l.guards)
      && (|l.forwards| < 4 ==>
            forall p :: p in players && "F" in p.positions && p !in l.centers + l.guards ==> p in l.forwards)
      && (|l.gfc| < 2 ==>
            forall p :: p in players && p !in l.centers + l.guards + l.forwards ==> p in l.gfc)
  {
    ShortCenters(players);
    ShortGuards(players);
    ShortForwards(players);
    ShortFlex(players);
  }

  /** Precedence: with unique ids, a player listing both "G" and "F" who is
      among the first four guard candidates not taken as a centre becomes a
      guard, never a forward. */
  lemma Precedence(players: seq<Player>, p: Player)
    requires UniqueIds(players)
    requires p in players && "G" in p.positions && "F" in p.positions
    requires p.id in Prefix(Free(SortedPoolOf(players, "G"), IdSet(Allocate(players).centers)), 4)
    ensures p in Allocate(players).guards && p !in Allocate(players).forwards
  {
    var byId := ById(players);
    AllocatePicks(players);
    PlacedIdSets(players);
    PlacedFacts(players);
    ByIdEntries(players);
    ByIdFinds(players);
    LookUpFacts(byId, GuardIds(players));
    LookUpFacts(byId, ForwardIds(players));
    DistinctSplit(CenterIds(players) + GuardIds(players) + ForwardIds(players), FlexIds(players));
    DistinctSplit(CenterIds(players) + GuardIds(players), ForwardIds(players));
  }

  /** Reserve: with unique ids, the reserve holds exactly the roster players
      no slot took, in the order of the sorted flex pool. */
  lemma Reserve(players: seq<Player>)
    requires UniqueIds(players)
    ensures var l := Allocate(players);
      && l.reserve == LookUp(ById(players),
                             Free(SortedFlex(players), IdSet(l.centers + l.guards + l.forwards + l.gfc)))
      && forall q :: q in l.reserve <==> q in players && q !in l.centers + l.guards + l.forwards + l.gfc
  {
    var l := Allocate(players);
    AllocatePicks(players);
    PlacedIdSets(players);
    Partition(players);
    var placed := l.centers + l.guards + l.forwards + l.gfc;
    assert Parts(l) == placed + l.reserve;
    DistinctSplit(placed, l.reserve);
    forall q ensures q in l.reserve <==> q in players && q !in placed {
      assert q in Parts(l) <==> q in multiset(Parts(l));
      assert q in players <==> q in multiset(players);
    }
  }

  /** An empty roster gives five empty parts. */
  lemma EmptyRoster()
    ensures Allocate([]) == Lineup([], [], [], [], [])
  {
  }

  // ---------------------------------------------------------------------
  // Facts for working out the lineup of a given roster

  lemma AllIdsAppend(a: seq<Player>, b: seq<Player>)
    ensures AllIds(a + b) == AllIds(a) + AllIds(b)
  {
  }

  lemma {:induction false} PoolAppend(a: seq<Player>, b: seq<Player>, pos: string)
    ensures Pool(a + b, pos) == Pool(a, pos) + Pool(b, pos)
  {
    if b == [] {
      assert a + b == a;
    } else {
      var init := b[..|b| - 1];
      assert (a + b)[..|a + b| - 1] == a + init;
      PoolAppend(a, init, pos);
    }
  }

  /** Sorting a pool that is already in comparator order keeps it as it is. */
  lemma {:induction false} SortIdsOfSorted(s: seq<string>, byId: map<string, Player>)
    requires Keyed(s, byId) && SortedIds(s, byId)
    ensures SortIds(s, byId) == s
  {
    if s != [] {
      var init, last := s[..|s| - 1], s[|s| - 1];
      KeyedIndexes(s, byId);
      SortedIdsAt(s, byId);
      SortedIdsAt(init, byId);
      forall i, j | 0 <= i < j < |init| ensures Precedes(byId[init[i]], byId[init[j]]) {
        assert init[i] == s[i] && init[j] == s[j];
      }
      SortIdsOfSorted(init, byId);
      assert SortIds(s, byId) == InsertBack(init, last, byId);
      if init != [] {
        assert init[|init| - 1] == s[|s| - 2];
        assert Precedes(byId[s[|s| - 2]], byId[last]);
      }
      assert s == init + [last];
    }
  }

  /** No two ids of `t` may sort either way round. */
  ghost predicate StrictlySorted(t: seq<string>, byId: map<string, Player>)
    requires Keyed(t, byId)
  {
    StrictOrder(LookUp(byId, t))
  }

  /** Strict sortedness of ids, stated on the dictionary entries directly. */
  lemma StrictlySortedAt(t: seq<string>, byId: map<string, Player>)
    requires Keyed(t, byId)
    ensures StrictlySorted(t, byId) <==>
      forall i, j :: 0 <= i < j < |t| ==> !Precedes(byId[t[j]], byId[t[i]])
  {
    var r := LookUp(byId, t);
    assert forall k :: 0 <= k < |t| ==> r[k] == byId[t[k]];
  }

  /** A sorted sequence of distinct ids holding the same ids as a strictly
      sorted one is that sequence. */
  lemma {:induction false} SortedUnique(s: seq<string>, t: seq<string>, byId: map<string, Player>)
    requires Keyed(s, byId) && Keyed(t, byId)
    requires Distinct(s) && SortedIds(s, byId) && StrictlySorted(t, byId)
    requires forall x :: x in s <==> x in t
    ensures s == t
  {
    if s == [] {
      assert forall k :: 0 <= k < |t| ==> t[k] in t;
    } else {
      SortedIdsAt(s, byId);
      StrictlySortedAt(t, byId);
      assert s[0] in s;
      var j :| 0 <= j < |t| && t[j] == s[0];
      assert t[0] in t;
      var i :| 0 <= i < |s| && s[i] == t[0];
      assert s[0] == t[0];
      DistinctTail(s);
      var s', t' := s[1..], t[1..];
      assert StrictlySorted(t', byId) by {
        StrictlySortedAt(t', byId);
        forall a, b | 0 <= a < b < |t'| ensures !Precedes(byId[t'[b]], byId[t'[a]]) {
          assert t'[a] == t[a + 1] && t'[b] == t[b + 1];
        }
      }
      assert SortedIds(s', byId) by {
        SortedIdsAt(s', byId);
        forall a, b | 0 <= a < b < |s'| ensures Precedes(byId[s'[a]], byId[s'[b]]) {
          assert s'[a] == s[a + 1] && s'[b] == s[b + 1];
        }
      }
      forall x ensures x in s' <==> x in t' {
        if x in t' {
          var b :| 0 <= b < |t'| && t'[b] == x;
          assert t[b + 1] == x;
          assert !Precedes(byId[t[b + 1]], byId[t[0]]);
          assert x in s;
        }
        if x in s' {
          assert x != s[0];
          assert x in t;
        }
      }
      SortedUnique(s', t', byId);
      assert s == [s[0]] + s' && t == [t[0]] + t';
    }
  }

  /** Looking up the ids of roster players gives those players back. */
  lemma LookUpRoster(players: seq<Player>, q: seq<Player>)
    requires UniqueIds(players)
    requires forall p :: p in q ==> p in players
    ensures Keyed(AllIds(q), ById(players))
    ensures LookUp(ById(players), AllIds(q)) == q
  {
    ByIdFinds(players);
    forall i | 0 <= i < |q| ensures q[i] in players {
    }
  }

  lemma {:induction false} FreeTwice(s: seq<string>, a: set<string>, b: set<string>)
    ensures Free(Free(s, a), b) == Free(s, a + b)
  {
    if s != [] {
      var head := if s[0] in a then [] else [s[0]];
      FreeAppend(head, Free(s[1..], a), b);
      FreeTwice(s[1..], a, b);
    }
  }

  /** No two players of `q` may sort either way round. */
  ghost predicate StrictOrder(q: seq<Player>) {
    forall i, j :: 0 <= i < j < |q| ==> !Precedes(q[j], q[i])
  }

  /** `pa` sorts strictly before `pb`. */
  ghost predicate Before(pa: Player, pb: Player) {
    ComparePlayers(pa, pb) < 0
  }

  /** Strict order between neighbours gives strict order throughout. */
  lemma {:induction false} ChainOrder(q: seq<Player>)
    requires forall i :: 0 <= i < |q| - 1 ==> Before(q[i], q[i + 1])
    ensures StrictOrder(q)
  {
    if |q| > 1 {
      var tail := q[1..];
      forall i | 0 <= i < |tail| - 1 ensures Before(tail[i], tail[i + 1]) {
        assert tail[i] == q[i + 1] && tail[i + 1] == q[i + 2];
      }
      ChainOrder(tail);
      forall j | 1 <= j < |q| ensures Before(q[0], q[j]) {
        if j > 1 {
          assert tail[0] == q[1] && tail[j - 1] == q[j];
          assert Before(q[1], q[j]) by {
            assert !Precedes(tail[j - 1], tail[0]);
          }
        }
      }
      forall i, j | 0 <= i < j < |q| ensures !Precedes(q[j], q[i]) {
        if i > 0 {
          assert q[i] == tail[i - 1] && q[j] == tail[j - 1];
        }
      }
    }
  }

  lemma StrictIds(players: seq<Player>, q: seq<Player>)
    requires UniqueIds(players) && StrictOrder(q)
    requires forall p :: p in q ==> p in players
    ensures Keyed(AllIds(q), ById(players)) && StrictlySorted(AllIds(q), ById(players))
  {
    LookUpRoster(players, q);
    var byId := ById(players);
    forall i, j | 0 <= i < j < |q| ensures !Precedes(byId[AllIds(q)[j]], byId[AllIds(q)[i]]) {
      assert byId[AllIds(q)[i]] == LookUp(byId, AllIds(q))[i];
      assert byId[AllIds(q)[j]] == LookUp(byId, AllIds(q))[j];
    }
  }

  /** With unique ids, the sorted pool of `pos` is the ids of `want` when
      `want` is in strict comparator order, lists only roster players who
      list `pos`, and names every such player. */
  lemma SortedPoolIs(players: seq<Player>, pos: string, want: seq<Player>)
    requires UniqueIds(players) && StrictOrder(want)
    requires forall p :: p in want ==> p in players && pos in p.positions
    requires forall p :: p in players && pos in p.positions ==> p.id in AllIds(want)
    ensures SortedPoolOf(players, pos) == AllIds(want)
  {
    var byId := ById(players);
    var s, t := SortedPoolOf(players, pos), AllIds(want);
    SortedPoolFacts(players, pos);
    PoolMembers(players, pos);
    ByIdEntries(players);
    ByIdFinds(players);
    StrictIds(players, want);
    forall x ensures x in s <==> x in t {
      if x in t {
        var i :| 0 <= i < |want| && t[i] == x;
        assert want[i] in want;
      }
      if x in s {
        assert byId[x] in players;
      }
    }
    SortedUnique(s, t, byId);
  }

  /** With unique ids, the untaken part of the sorted flex pool is the ids
      of `want` when `want` is in strict comparator order, lists only
      roster players whose ids are not in `taken`, and names every such
      player. */
  lemma FreeFlexIs(players: seq<Player>, taken: set<string>, want: seq<Player>)
    requires UniqueIds(players) && StrictOrder(want)
    requires forall p :: p in want ==> p in players && p.id !in taken
    requires forall p :: p in players && p.id !in taken ==> p.id in AllIds(want)
    ensures Free(SortedFlex(players), taken) == AllIds(want)
  {
    var byId := ById(players);
    var s, t := Free(SortedFlex(players), taken), AllIds(want);
    SortedFlexFacts(players);
    FreeDistinct(SortedFlex(players), taken);
    FreeSorted(SortedFlex(players), taken, byId);
    ByIdEntries(players);
    ByIdFinds(players);
    StrictIds(players, want);
    forall x ensures x in s <==> x in t {
      assert x in SortedFlex(players) <==> x in multiset(AllIds(players));
      if x in t {
        var i :| 0 <= i < |want| && t[i] == x;
        assert want[i] in want;
      }
      if x in s {
        assert byId[x] in players;
      }
    }
    SortedUnique(s, t, byId);
  }
}
