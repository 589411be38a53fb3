/** The lineup allocator of src/model.ts: players are sorted into candidate
    pools, slots are filled in a fixed order from those pools through one
    shared set of taken ids, and whoever is left goes to the reserve. */
module Model {
  import opened Seqs

  /** Game-day status; the declaration order gives the enumeration's values. */
  datatype Availability = Playing | Questionable | NotPlaying | Injured {
    function Ordinal(): (n: nat)
      ensures n <= 3
    {
      match this
      case Playing => 0
      case Questionable => 1
      case NotPlaying => 2
      case Injured => 3
    }
  }

  datatype Player = Player(
    id: string,
    name: string,
    positions: seq<string>,
    availability: Availability,
    rank: int)

  datatype Lineup = Lineup(
    centers: seq<Player>,
    guards: seq<Player>,
    forwards: seq<Player>,
    gfc: seq<Player>,
    reserve: seq<Player>)

  /** `pa` may come before `pb`: it is more available, or as available and
      ranked no worse. */
  ghost predicate Precedes(pa: Player, pb: Player) {
    || pa.availability.Ordinal() < pb.availability.Ordinal()
    || (pa.availability == pb.availability && pa.rank <= pb.rank)
  }

  /** Every player comes no later than the comparator allows. */
  ghost predicate InOrder(ps: seq<Player>) {
    forall i, j :: 0 <= i < j < |ps| ==> Precedes(ps[i], ps[j])
  }

  /** The comparator handed to the sort: the availability difference, or
      the rank difference when availability is the same. */
  function ComparePlayers(pa: Player, pb: Player): (c: int)
    ensures c <= 0 <==> Precedes(pa, pb)
    ensures c == 0 <==> pa.availability == pb.availability && pa.rank == pb.rank
  {
    if pa.availability.Ordinal() - pb.availability.Ordinal() != 0 then
      pa.availability.Ordinal() - pb.availability.Ordinal()
    else
      pa.rank - pb.rank
  }

  // ---------------------------------------------------------------------
  // Candidate pools

  /** The ids of the players that list `pos`, in input order. */
  function Pool(players: seq<Player>, pos: string): (r: seq<string>)
    ensures |r| <= |players|
  {
    if players == [] then []
    else
      var p := players[|players| - 1];
      Pool(players[..|players| - 1], pos) + (if pos in p.positions then [p.id] else [])
  }

  /** The ids of all players, in input order: the flex pool. */
  function AllIds(players: seq<Player>): (r: seq<string>)
    ensures |r| == |players|
    ensures forall i :: 0 <= i < |players| ==> r[i] == players[i].id
  {
    if players == [] then []
    else AllIds(players[..|players| - 1]) + [players[|players| - 1].id]
  }

  /** The id-to-player dictionary; a later player overwrites an earlier one
      with the same id. */
  function ById(players: seq<Player>): (r: map<string, Player>)
    ensures players != [] ==>
      var last := players[|players| - 1];
      last.id in r && r[last.id] == last
  {
    if players == [] then map[]
    else
      var p := players[|players| - 1];
      ById(players[..|players| - 1])[p.id := p]
  }

  ghost predicate UniqueIds(players: seq<Player>) {
    Distinct(AllIds(players))
  }

  /** Every id in `ids` can be looked up. */
  ghost predicate Keyed(ids: seq<string>, byId: map<string, Player>) {
    forall x :: x in ids ==> x in byId
  }

  /** The players behind a sequence of ids. */
  function LookUp(byId: map<string, Player>, ids: seq<string>): (r: seq<Player>)
    requires Keyed(ids, byId)
  {
    seq(|ids|, i requires 0 <= i < |ids| => byId[ids[i]])
  }

  lemma {:induction false} PoolKeyed(players: seq<Player>, pos: string)
    ensures Keyed(Pool(players, pos), ById(players))
  {
    if players != [] {
      PoolKeyed(players[..|players| - 1], pos);
    }
  }

  lemma {:induction false} AllIdsKeyed(players: seq<Player>)
    ensures Keyed(AllIds(players), ById(players))
  {
    if players != [] {
      AllIdsKeyed(players[..|players| - 1]);
    }
  }

  // ---------------------------------------------------------------------
  // Sorting a pool

  /** The players behind `ids` are in comparator order. */
  ghost predicate SortedIds(ids: seq<string>, byId: map<string, Player>)
    requires Keyed(ids, byId)
  {
    InOrder(LookUp(byId, ids))
  }

  /** Sortedness of ids, stated on the dictionary entries directly. */
  lemma SortedIdsAt(ids: seq<string>, byId: map<string, Player>)
    requires Keyed(ids, byId)
    ensures SortedIds(ids, byId) <==>
      forall i, j :: 0 <= i < j < |ids| ==> Precedes(byId[ids[i]], byId[ids[j]])
  {
    var r := LookUp(byId, ids);
    assert forall k :: 0 <= k < |ids| ==> r[k] == byId[ids[k]];
  }

  /** Places `x` behind every id of `t` that it does not sort strictly
      before, as one step of a stable insertion sort. */
  function InsertBack(t: seq<string>, x: string, byId: map<string, Player>): (r: seq<string>)
    requires Keyed(t, byId) && x in byId
    ensures Keyed(r, byId)
    decreases |t|
  {
    if t == [] then [x]
    else
      var last := t[|t| - 1];
      if ComparePlayers(byId[last], byId[x]) > 0 then
        InsertBack(t[..|t| - 1], x, byId) + [last]
      else
        t + [x]
  }

  /** The stable sort of a pool by the comparator. */
  function SortIds(s: seq<string>, byId: map<string, Player>): (r: seq<string>)
    requires Keyed(s, byId)
    ensures Keyed(r, byId)
  {
    if s == [] then []
    else
      InsertBack(SortIds(s[..|s| - 1], byId), s[|s| - 1], byId)
  }

  lemma {:induction false} InsertBackPermutation(t: seq<string>, x: string, byId: map<string, Player>)
    requires Keyed(t, byId) && x in byId
    ensures multiset(InsertBack(t, x, byId)) == multiset(t) + multiset{x}
    decreases |t|
  {
    if t != [] {
      var init, last := t[..|t| - 1], t[|t| - 1];
      assert t == init + [last];
      if ComparePlayers(byId[last], byId[x]) > 0 {
        InsertBackPermutation(init, x, byId);
      }
    }
  }

  /** Sorting neither loses nor duplicates an id. */
  lemma {:induction false} SortIdsPermutation(s: seq<string>, byId: map<string, Player>)
    requires Keyed(s, byId)
    ensures multiset(SortIds(s, byId)) == multiset(s)
  {
    if s != [] {
      var init := s[..|s| - 1];
      assert s == init + [s[|s| - 1]];
      SortIdsPermutation(init, byId);
      InsertBackPermutation(SortIds(init, byId), s[|s| - 1], byId);
    }
  }

  lemma {:induction false} InsertBackSorted(t: seq<string>, x: string, byId: map<string, Player>)
    requires Keyed(t, byId) && x in byId && SortedIds(t, byId)
    ensures SortedIds(InsertBack(t, x, byId), byId)
    decreases |t|
  {
    var r := InsertBack(t, x, byId);
    SortedIdsAt(t, byId);
    InsertBackPermutation(t, x, byId);
    SortedIdsAt(r, byId);
    if t != [] {
      var init, last := t[..|t| - 1], t[|t| - 1];
      if ComparePlayers(byId[last], byId[x]) > 0 {
        assert SortedIds(init, byId) by {
          SortedIdsAt(init, byId);
        }
        InsertBackSorted(init, x, byId);
        InsertBackPermutation(init, x, byId);
        var r' := InsertBack(init, x, byId);
        SortedIdsAt(r', byId);
        assert r == r' + [last];
        forall k | 0 <= k < |r'| ensures Precedes(byId[r'[k]], byId[last]) {
          assert r'[k] in multiset(r');
          if r'[k] != x {
            assert r'[k] in init;
          }
        }
      }
    }
  }

  lemma {:induction false} SortIdsSorted(s: seq<string>, byId: map<string, Player>)
    requires Keyed(s, byId)
    ensures SortedIds(SortIds(s, byId), byId)
  {
    if s != [] {
      SortIdsSorted(s[..|s| - 1], byId);
      InsertBackSorted(SortIds(s[..|s| - 1], byId), s[|s| - 1], byId);
    }
  }

  /** Every id of a keyed sequence, and of its prefix without the last id,
      can be looked up. */
  lemma KeyedIndexes(t: seq<string>, byId: map<string, Player>)
    requires Keyed(t, byId)
    ensures forall k :: 0 <= k < |t| ==> t[k] in byId
    ensures t != [] ==> Keyed(t[..|t| - 1], byId)
  {
    forall k | 0 <= k < |t| ensures t[k] in byId {
      assert t[k] in t;
    }
  }

  /** `InsertBack` puts `x` right after the last id of `t` that does not sort
      strictly after it. */
  lemma {:induction false} InsertBackAt(t: seq<string>, j: nat, x: string, byId: map<string, Player>)
    requires j <= |t| && Keyed(t, byId) && x in byId
    requires j > 0 ==> ComparePlayers(byId[t[j - 1]], byId[x]) <= 0
    requires forall k :: j <= k < |t| ==> ComparePlayers(byId[t[k]], byId[x]) > 0
    ensures InsertBack(t, x, byId) == t[..j] + [x] + t[j..]
    decreases |t|
  {
    if j < |t| {
      var init := t[..|t| - 1];
      KeyedIndexes(t, byId);
      assert ComparePlayers(byId[t[|t| - 1]], byId[x]) > 0;
      assert InsertBack(t, x, byId) == InsertBack(init, x, byId) + [t[|t| - 1]];
      assert j > 0 ==> init[j - 1] == t[j - 1];
      forall k | j <= k < |init| ensures ComparePlayers(byId[init[k]], byId[x]) > 0 {
        assert init[k] == t[k];
      }
      InsertBackAt(init, j, x, byId);
      InsertBeforeLast(t, j, x);
    } else {
      assert t[..j] == t;
    }
  }

  /** Inserting at `j < |t|` commutes with appending the last element. */
  lemma InsertBeforeLast<T>(t: seq<T>, j: nat, x: T)
    requires j < |t|
    ensures t[..|t| - 1][..j] + [x] + t[..|t| - 1][j..] + [t[|t| - 1]] == t[..j] + [x] + t[j..]
  {
    var init := t[..|t| - 1];
    assert init[..j] == t[..j];
    assert t[j..] == init[j..] + [t[|t| - 1]];
  }

  /** A sequence that agrees with `t` below `j`, holds `x` at `j` and `t`
      shifted by one above it is `t` with `x` inserted at `j`. */
  lemma ShiftedInsert<T>(u: seq<T>, t: seq<T>, j: nat, x: T)
    requires j <= |t| && |u| == |t| + 1
    requires forall k :: 0 <= k < j ==> u[k] == t[k]
    requires u[j] == x
    requires forall k :: j < k < |u| ==> u[k] == t[k - 1]
    ensures u == t[..j] + [x] + t[j..]
  {
    var r := t[..j] + [x] + t[j..];
    forall k | 0 <= k < |u| ensures u[k] == r[k] {
      if k < j {
        assert r[k] == t[k];
      } else if k > j {
        assert r[k] == t[k - 1];
      }
    }
  }

  /** One pass of the insertion sort: `a[..i]` is sorted, and `a[i]` is
      moved left past every id that sorts strictly after it. */
  method InsertInPlace(a: array<string>, i: nat, byId: map<string, Player>)
    requires i < a.Length
    requires Keyed(a[..i], byId) && a[i] in byId
    modifies a
    ensures a[..i + 1] == InsertBack(old(a[..i]), old(a[i]), byId)
    ensures forall k :: i < k < a.Length ==> a[k] == old(a[k])
  {
    ghost var t := a[..i];
    KeyedIndexes(t, byId);
    var x := a[i];
    var j := i;
    while j > 0 && ComparePlayers(byId[a[j - 1]], byId[x]) > 0
      invariant 0 <= j <= i
      invariant forall k :: 0 <= k < j ==> a[k] == t[k]
      invariant forall k :: j < k <= i ==> a[k] == t[k - 1]
      invariant forall k :: i < k < a.Length ==> a[k] == old(a[k])
      invariant forall k :: j <= k < i ==> ComparePlayers(byId[t[k]], byId[x]) > 0
      decreases j
    {
      a[j] := a[j - 1];
      j := j - 1;
    }
    InsertBackAt(t, j, x, byId);
    a[j] := x;
    ShiftedInsert(a[..i + 1], t, j, x);
  }

  lemma SortIdsPrefix(s: seq<string>, i: nat, byId: map<string, Player>)
    requires i < |s| && Keyed(s, byId)
    ensures Keyed(s[..i], byId) && Keyed(s[..i + 1], byId)
    ensures SortIds(s[..i + 1], byId) == InsertBack(SortIds(s[..i], byId), s[i], byId)
  {
    assert s[..i + 1][..i] == s[..i];
  }

  /** Sorts a pool in place, the way `Array.prototype.sort` does with the
      comparator: stably, by inserting each id behind the ids it does not
      sort strictly before. */
  method SortInPlace(a: array<string>, byId: map<string, Player>)
    requires Keyed(a[..], byId)
    modifies a
    ensures a[..] == SortIds(old(a[..]), byId)
  {
    ghost var orig := a[..];
    for i := 0 to a.Length
      invariant Keyed(orig[..i], byId)
      invariant a[..i] == SortIds(orig[..i], byId)
      invariant forall k :: i <= k < a.Length ==> a[k] == orig[k]
    {
      SortIdsPrefix(orig, i, byId);
      InsertInPlace(a, i, byId);
    }
    assert orig[..a.Length] == orig;
  }

  // ---------------------------------------------------------------------
  // Filling slots

  /** The place of the first id of `src` that is not taken, or `|src|`. */
  function FirstFree(src: seq<string>, taken: set<string>): (k: nat)
    ensures k <= |src|
    ensures forall j :: 0 <= j < k ==> src[j] in taken
    ensures k < |src| ==> src[k] !in taken
  {
    if src == [] || src[0] !in taken then 0
    else 1 + FirstFree(src[1..], taken)
  }

  /** The state `assignPlayer` works on: the slot being filled and the ids
      taken so far. */
  datatype Slot = Slot(dest: seq<Player>, taken: set<string>)

  /** One `assignPlayer` call: it only ever pushes one player onto the slot
      and adds ids to the taken set. */
  function Assign(src: seq<string>, byId: map<string, Player>, s: Slot): (r: Slot)
    requires Keyed(src, byId)
    ensures s.taken <= r.taken
    ensures |s.dest| <= |r.dest| <= |s.dest| + 1 && r.dest[..|s.dest|] == s.dest
  {
    var k := FirstFree(src, s.taken);
    if k < |src| then Slot(s.dest + [byId[src[k]]], s.taken + {src[k]}) else s
  }

  /** `n` consecutive `assignPlayer` calls on the same pool: earlier picks
      stay in place and taken ids stay taken. */
  function Fill(src: seq<string>, byId: map<string, Player>, n: nat, s: Slot): (r: Slot)
    requires Keyed(src, byId)
    ensures s.taken <= r.taken
    ensures |s.dest| <= |r.dest| && r.dest[..|s.dest|] == s.dest
  {
    if n == 0 then s
    else
      var s1 := Assign(src, byId, s);
      var r := Fill(src, byId, n - 1, s1);
      assert r.dest[..|s.dest|] == r.dest[..|s1.dest|][..|s.dest|];
      r
  }

  /** What `calculateLineup` computes; the reserve never holds more players
      than the roster. */
  function Allocate(players: seq<Player>): (r: Lineup)
    ensures |r.reserve| <= |players|
  {
    var byId := ById(players);
    PoolKeyed(players, "G");
    PoolKeyed(players, "F");
    PoolKeyed(players, "C");
    AllIdsKeyed(players);
    var guards := SortIds(Pool(players, "G"), byId);
    var forwards := SortIds(Pool(players, "F"), byId);
    var centers := SortIds(Pool(players, "C"), byId);
    var gfc := SortIds(AllIds(players), byId);
    SortIdsPermutation(AllIds(players), byId);
    assert |gfc| == |multiset(gfc)| == |AllIds(players)|;
    var c := Fill(centers, byId, 2, Slot([], {}));
    var g := Fill(guards, byId, 4, Slot([], c.taken));
    var f := Fill(forwards, byId, 4, Slot([], g.taken));
    var x := Fill(gfc, byId, 2, Slot([], f.taken));
    Lineup(c.dest, g.dest, f.dest, x.dest, LookUp(byId, Free(gfc, x.taken)))
  }

  /** `assignPlayer`: scans the pool and moves the first untaken id into the
      slot, then stops. */
  method AssignPlayer(src: array<string>, byId: map<string, Player>, dest: seq<Player>, taken: set<string>)
    returns (dest': seq<Player>, taken': set<string>)
    requires Keyed(src[..], byId)
    ensures Slot(dest', taken') == Assign(src[..], byId, Slot(dest, taken))
  {
    dest', taken' := dest, taken;
    for i := 0 to src.Length
      invariant forall j :: 0 <= j < i ==> src[j] in taken
      invariant dest' == dest && taken' == taken
    {
      var id := src[i];
      if id !in taken' {
        assert src[..][i] == id;
        dest' := dest' + [byId[id]];
        taken' := taken' + {id};
        FirstFreeAt(src[..], taken, i);
        break;
      }
    }
  }

  lemma FirstFreeAt(src: seq<string>, taken: set<string>, i: nat)
    requires i < |src| && src[i] !in taken
    requires forall j :: 0 <= j < i ==> src[j] in taken
    ensures FirstFree(src, taken) == i
  {
  }

  /** Two and four `assignPlayer` calls in a row. */
  lemma FillUnfold(src: seq<string>, byId: map<string, Player>, s: Slot)
    requires Keyed(src, byId)
    ensures Fill(src, byId, 2, s) == Assign(src, byId, Assign(src, byId, s))
    ensures Fill(src, byId, 4, s)
         == Assign(src, byId, Assign(src, byId, Assign(src, byId, Assign(src, byId, s))))
  {
    var s1 := Assign(src, byId, s);
    var s2 := Assign(src, byId, s1);
    var s3 := Assign(src, byId, s2);
    assert Fill(src, byId, 1, s1) == s2;
    assert Fill(src, byId, 1, s3) == Assign(src, byId, s3);
    assert Fill(src, byId, 2, s2) == Fill(src, byId, 1, s3);
  }

  lemma LookUpAppend(byId: map<string, Player>, a: seq<string>, b: seq<string>)
    requires Keyed(a, byId) && Keyed(b, byId)
    ensures Keyed(a + b, byId)
    ensures LookUp(byId, a + b) == LookUp(byId, a) + LookUp(byId, b)
  {
  }

  /** The loop that builds the candidate pools and the id dictionary. */
  method CollectPools(players: seq<Player>)
    returns (guards: seq<string>, forwards: seq<string>, centers: seq<string>, gfc: seq<string>,
             playersById: map<string, Player>)
    ensures guards == Pool(players, "G") && forwards == Pool(players, "F")
    ensures centers == Pool(players, "C") && gfc == AllIds(players)
    ensures playersById == ById(players)
  {
    guards, forwards, centers, gfc := [], [], [], [];
    playersById := map[];
    for i := 0 to |players|
      invariant guards == Pool(players[..i], "G")
      invariant forwards == Pool(players[..i], "F")
      invariant centers == Pool(players[..i], "C")
      invariant gfc == AllIds(players[..i])
      invariant playersById == ById(players[..i])
    {
      var p := players[i];
      assert players[..i + 1][..i] == players[..i];
      if "G" in p.positions { guards := guards + [p.id]; }
      if "F" in p.positions { forwards := forwards + [p.id]; }
      if "C" in p.positions { centers := centers + [p.id]; }
      gfc := gfc + [p.id];
      playersById := playersById[p.id := p];
    }
    assert players[..|players|] == players;
  }

  /** A pool as an array, sorted in place by the comparator. */
  method SortedPool(pool: seq<string>, playersById: map<string, Player>) returns (a: array<string>)
    requires Keyed(pool, playersById)
    ensures fresh(a)
    ensures a[..] == SortIds(pool, playersById)
  {
    a := new string[|pool|](i requires 0 <= i < |pool| => pool[i]);
    assert a[..] == pool;
    SortInPlace(a, playersById);
  }

  /** The loop that moves every untaken id of the sorted flex pool into the
      reserve. */
  method CollectReserve(gfc: array<string>, playersById: map<string, Player>, taken: set<string>)
    returns (reserve: seq<Player>)
    requires Keyed(gfc[..], playersById)
    ensures reserve == LookUp(playersById, Free(gfc[..], taken))
  {
    reserve := [];
    for i := 0 to gfc.Length
      invariant Keyed(gfc[..i], playersById)
      invariant reserve == LookUp(playersById, Free(gfc[..i], taken))
    {
      var id := gfc[i];
      assert gfc[..i + 1] == gfc[..i] + [id];
      FreeAppend(gfc[..i], [id], taken);
      if id in taken {
        continue;
      }
      reserve := reserve + [playersById[id]];
    }
    assert gfc[..gfc.Length] == gfc[..];
  }

  /** `calculateLineup`. */
  method CalculateLineup(players: seq<Player>) returns (lineup: Lineup)
    ensures lineup == Allocate(players)
  {
    var guards, forwards, centers, gfc, playersById := CollectPools(players);
    PoolKeyed(players, "G");
    PoolKeyed(players, "F");
    PoolKeyed(players, "C");
    AllIdsKeyed(players);
    var guardPool := SortedPool(guards, playersById);
    var forwardPool := SortedPool(forwards, playersById);
    var centerPool := SortedPool(centers, playersById);
    var gfcPool := SortedPool(gfc, playersById);

    ghost var C, G, F, X := centerPool[..], guardPool[..], forwardPool[..], gfcPool[..];
    var taken: set<string> := {};
    var cs, gs, fs, xs: seq<Player> := [], [], [], [];

    ghost var c0 := Slot(cs, taken);
    cs, taken := AssignPlayer(centerPool, playersById, cs, taken);
    cs, taken := AssignPlayer(centerPool, playersById, cs, taken);
    FillUnfold(C, playersById, c0);

    ghost var g0 := Slot(gs, taken);
    gs, taken := AssignPlayer(guardPool, playersById, gs, taken);
    gs, taken := AssignPlayer(guardPool, playersById, gs, taken);
    gs, taken := AssignPlayer(guardPool, playersById, gs, taken);
    gs, taken := AssignPlayer(guardPool, playersById, gs, taken);
    FillUnfold(G, playersById, g0);

    ghost var f0 := Slot(fs, taken);
    fs, taken := AssignPlayer(forwardPool, playersById, fs, taken);
    fs, taken := AssignPlayer(forwardPool, playersById, fs, taken);
    fs, taken := AssignPlayer(forwardPool, playersById, fs, taken);
    fs, taken := AssignPlayer(forwardPool, playersById, fs, taken);
    FillUnfold(F, playersById, f0);

    ghost var x0 := Slot(xs, taken);
    xs, taken := AssignPlayer(gfcPool, playersById, xs, taken);
    xs, taken := AssignPlayer(gfcPool, playersById, xs, taken);
    FillUnfold(X, playersById, x0);

    var reserve := CollectReserve(gfcPool, playersById, taken);
    lineup := Lineup(cs, gs, fs, xs, reserve);
  }
}
