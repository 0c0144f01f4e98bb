/** Expert load per rank, computed from physical experts and cross-checked from logical ones. */
module RankMatrix {
  import opened Wrappers

  /** Counts indexed by step, layer, expert. */
  type Counts = seq<seq<seq<int>>>

  /** `np.where(labels == g, counts, 0).sum()` */
  function GroupTotal(counts: seq<int>, labels: seq<int>, g: int): int
    requires |counts| == |labels|
  {
    if counts == [] then 0
    else
      var n := |counts| - 1;
      GroupTotal(counts[..n], labels[..n], g) + if labels[n] == g then counts[n] else 0
  }

  function Total(counts: seq<int>): int {
    if counts == [] then 0 else Total(counts[..|counts| - 1]) + counts[|counts| - 1]
  }

  predicate Shaped(c: Counts, steps: nat, layers: nat, experts: nat) {
    && |c| == steps && (forall s :: 0 <= s < steps ==> |c[s]| == layers)
    && (forall s, l :: 0 <= s < steps && 0 <= l < layers ==> |c[s][l]| == experts)
  }

  predicate Table(t: seq<seq<int>>, layers: nat, experts: nat) {
    |t| == layers && forall l :: 0 <= l < layers ==> |t[l]| == experts
  }

  // ---- Grouping ----

  /** The totals of the first `ranks` groups. */
  function RanksTotal(counts: seq<int>, labels: seq<int>, ranks: nat): int
    requires |counts| == |labels|
  {
    if ranks == 0 then 0 else RanksTotal(counts, labels, ranks - 1) + GroupTotal(counts, labels, ranks - 1)
  }

  lemma {:induction false} RanksTotalStep(counts: seq<int>, labels: seq<int>, ranks: nat)
    requires |counts| == |labels| > 0
    ensures var n := |counts| - 1;
            RanksTotal(counts, labels, ranks)
            == RanksTotal(counts[..n], labels[..n], ranks) + if 0 <= labels[n] < ranks then counts[n] else 0
  {
    if ranks > 0 { RanksTotalStep(counts, labels, ranks - 1); }
  }

  /** With every owner a rank, the rank totals add up to all that was routed. */
  lemma {:induction false} RanksConserveTotal(counts: seq<int>, labels: seq<int>, ranks: nat)
    requires |counts| == |labels| && forall p :: 0 <= p < |labels| ==> 0 <= labels[p] < ranks
    ensures RanksTotal(counts, labels, ranks) == Total(counts)
  {
    if counts == [] {
      NothingToRank(ranks);
    } else {
      RanksTotalStep(counts, labels, ranks);
      RanksConserveTotal(counts[..|counts| - 1], labels[..|counts| - 1], ranks);
    }
  }

  lemma {:induction false} NothingToRank(ranks: nat)
    ensures RanksTotal([], [], ranks) == 0
  {
    if ranks > 0 { NothingToRank(ranks - 1); }
  }

  lemma {:induction false} GroupTotalUpdate(counts: seq<int>, labels: seq<int>, e: nat, delta: int, g: int)
    requires |counts| == |labels| && e < |counts|
    ensures GroupTotal(counts[e := counts[e] + delta], labels, g)
            == GroupTotal(counts, labels, g) + if labels[e] == g then delta else 0
  {
    var n := |counts| - 1;
    var c := counts[e := counts[e] + delta];
    if e < n {
      GroupTotalUpdate(counts[..n], labels[..n], e, delta, g);
      assert c[..n] == counts[..n][e := counts[e] + delta];
    } else {
      assert c[..n] == counts[..n];
    }
  }

  /** Physical counts gathered by logical expert. */
  function Logical(counts: seq<int>, toLogical: seq<int>, experts: nat): (r: seq<int>)
    requires |counts| == |toLogical|
    ensures |r| == experts && forall e :: 0 <= e < experts ==> r[e] == GroupTotal(counts, toLogical, e)
  {
    seq(experts, e => GroupTotal(counts, toLogical, e))
  }

  /** Grouping by logical expert and then by its owner is grouping by owner at once. */
  lemma {:induction false} GroupTwice(counts: seq<int>, toLogical: seq<int>, owner: seq<int>, ownerOf: seq<int>, g: int)
    requires |counts| == |toLogical| == |owner|
    requires forall p :: 0 <= p < |counts| ==> 0 <= toLogical[p] < |ownerOf| && owner[p] == ownerOf[toLogical[p]]
    ensures GroupTotal(Logical(counts, toLogical, |ownerOf|), ownerOf, g) == GroupTotal(counts, owner, g)
  {
    var m := Logical(counts, toLogical, |ownerOf|);
    if counts == [] {
      AllZero(m, ownerOf, g);
    } else {
      var n := |counts| - 1;
      var before, e := Logical(counts[..n], toLogical[..n], |ownerOf|), toLogical[n];
      GroupTwice(counts[..n], toLogical[..n], owner[..n], ownerOf, g);
      assert m == before[e := before[e] + counts[n]];
      GroupTotalUpdate(before, ownerOf, e, counts[n], g);
    }
  }

  lemma {:induction false} AllZero(counts: seq<int>, labels: seq<int>, g: int)
    requires |counts| == |labels| && forall i :: 0 <= i < |counts| ==> counts[i] == 0
    ensures GroupTotal(counts, labels, g) == 0
  {
    if counts != [] { AllZero(counts[..|counts| - 1], labels[..|counts| - 1], g); }
  }

  // ---- The computed matrix ----

  /** `m[:, :, g]` is the load of group `g` for each of the first `groups`, and zero beyond. */
  ghost predicate Loads(m: array3<int>, counts: Counts, labels: seq<seq<int>>, groups: nat, steps: nat, layers: nat,
                        experts: nat)
    requires Shaped(counts, steps, layers, experts) && Table(labels, layers, experts)
    requires m.Length0 == steps && m.Length1 == layers
    reads m
  {
    forall s, l, g :: 0 <= s < steps && 0 <= l < layers && 0 <= g < m.Length2 ==>
      m[s, l, g] == if g < groups then GroupTotal(counts[s][l], labels[l], g) else 0
  }

  /** `np.zeros`, then one slice for every rank. */
  method GroupLoads(counts: Counts, labels: seq<seq<int>>, ranks: nat, width: nat, steps: nat, layers: nat,
                    experts: nat)
    returns (m: array3<int>)
    requires Shaped(counts, steps, layers, experts) && Table(labels, layers, experts) && ranks <= width
    ensures fresh(m) && m.Length0 == steps && m.Length1 == layers && m.Length2 == width
    ensures forall s, l, g :: 0 <= s < steps && 0 <= l < layers && 0 <= g < width ==>
              m[s, l, g] == if g < ranks then GroupTotal(counts[s][l], labels[l], g) else 0
    ensures Loads(m, counts, labels, ranks, steps, layers, experts)
  {
    m := new int[steps, layers, width]((s, l, r) => 0);
    for rank := 0 to ranks
      invariant Loads(m, counts, labels, rank, steps, layers, experts)
    {
      forall s, l | 0 <= s < steps && 0 <= l < layers {
        m[s, l, rank] := GroupTotal(counts[s][l], labels[l], rank);
      }
    }
  }

  /** What a segment of the record may hold. */
  datatype Segment = Segment(
    logical: Counts,
    physical: Option<Counts>,
    toLogical: Option<seq<seq<int>>>,
    owner: Option<seq<seq<int>>>,
    recorded: array3?<int>)

  ghost predicate WellShaped(seg: Segment, steps: nat, layers: nat, experts: nat, copies: nat) {
    && Shaped(seg.logical, steps, layers, experts)
    && (seg.physical.Some? ==> Shaped(seg.physical.value, steps, layers, copies))
    && (seg.toLogical.Some? ==> Table(seg.toLogical.value, layers, copies))
    && (seg.owner.Some? ==> Table(seg.owner.value, layers, copies))
    && (seg.recorded != null ==> seg.recorded.Length0 == steps && seg.recorded.Length1 == layers)
  }

  /** `_compute_rank_matrix_for_segment`: computed from physical counts and owners, else the recorded one, else
      nothing. */
  method RankMatrixOf(seg: Segment, ranks: nat, steps: nat, layers: nat, experts: nat, copies: nat)
    returns (m: array3?<int>, computed: bool)
    requires WellShaped(seg, steps, layers, experts, copies)
    ensures computed <==> seg.physical.Some? && seg.owner.Some?
    ensures !computed ==> m == seg.recorded
    ensures computed ==>
              && m != null && fresh(m) && m.Length0 == steps && m.Length1 == layers && m.Length2 == ranks
              && Loads(m, seg.physical.value, seg.owner.value, ranks, steps, layers, copies)
  {
    computed := seg.physical.Some? && seg.owner.Some?;
    if computed {
      m := GroupLoads(seg.physical.value, seg.owner.value, ranks, ranks, steps, layers, copies);
    } else {
      m := seg.recorded;
    }
  }

  // ---- The check ----

  datatype CheckError = BadLogicalId | BadRank

  /** A list index as Python reads it: negative ones count from the end. */
  function Position(id: int, n: nat): int {
    if id < 0 then id + n else id
  }

  predicate Indexable(ids: seq<int>, n: nat) {
    forall p :: 0 <= p < |ids| ==> 0 - n <= ids[p] < n
  }

  function Positions(ids: seq<int>, n: nat): (r: seq<int>)
    ensures |r| == |ids| && forall p :: 0 <= p < |r| ==> r[p] == Position(ids[p], n)
    ensures Indexable(ids, n) ==> forall p :: 0 <= p < |r| ==> 0 <= r[p] < n
  {
    seq(|ids|, p requires 0 <= p < |ids| => Position(ids[p], n))
  }

  /** The ranks that hold a copy of the logical expert at position `e`. */
  function Owners(places: seq<int>, owner: seq<int>, e: int): set<int>
    requires |places| == |owner|
  {
    set p | 0 <= p < |places| && places[p] == e :: owner[p]
  }

  /** `_logical_owner_ep_ranks` for one layer; an id out of range raises. */
  method LogicalOwners(toLogical: seq<int>, owner: seq<int>, experts: nat)
    returns (r: Result<seq<set<int>>, CheckError>)
    requires |toLogical| == |owner|
    ensures r.Ok? <==> Indexable(toLogical, experts)
    ensures r.Err? ==> r.error == BadLogicalId
    ensures r.Ok? ==>
              && |r.value| == experts
              && forall e :: 0 <= e < experts ==> r.value[e] == Owners(Positions(toLogical, experts), owner, e)
    ensures r.Ok? <==> forall p :: 0 <= p < |toLogical| ==> 0 - experts <= toLogical[p] < experts
    ensures r.Ok? ==> forall e, o :: 0 <= e < experts ==>
              (o in r.value[e] <==>
                 exists p :: 0 <= p < |toLogical| && owner[p] == o
                             && (toLogical[p] == e || toLogical[p] == e - experts))
  {
    var places := Positions(toLogical, experts);
    var owners: seq<set<int>> := seq(experts, e => {});
    for p := 0 to |toLogical|
      invariant |owners| == experts && Indexable(toLogical[..p], experts)
      invariant forall e :: 0 <= e < experts ==> owners[e] == Owners(places[..p], owner[..p], e)
    {
      if !(0 - experts <= toLogical[p] < experts) { return Err(BadLogicalId); }
      var e := places[p];
      forall d | 0 <= d < experts
        ensures Owners(places[..p + 1], owner[..p + 1], d)
             == Owners(places[..p], owner[..p], d) + if d == e then {owner[p]} else {}
      {
        OneMoreOwner(places, owner, p, d);
      }
      owners := owners[e := owners[e] + {owner[p]}];
    }
    assert places[..|places|] == places && owner[..|owner|] == owner && toLogical[..|toLogical|] == toLogical;
    forall e, o | 0 <= e < experts
      ensures o in owners[e] <==>
              exists p :: 0 <= p < |toLogical| && owner[p] == o && (toLogical[p] == e || toLogical[p] == e - experts)
    {
      OwnersAre(toLogical, owner, experts, e, o);
    }
    return Ok(owners);
  }

  lemma OwnersAre(toLogical: seq<int>, owner: seq<int>, experts: nat, e: nat, o: int)
    requires |toLogical| == |owner| && Indexable(toLogical, experts) && e < experts
    ensures o in Owners(Positions(toLogical, experts), owner, e)
            <==> exists p :: 0 <= p < |toLogical| && owner[p] == o
                             && (toLogical[p] == e || toLogical[p] == e - experts)
  {
    var places := Positions(toLogical, experts);
    if p :| 0 <= p < |toLogical| && owner[p] == o && (toLogical[p] == e || toLogical[p] == e - experts) {
      assert places[p] == e;
    }
    if o in Owners(places, owner, e) {
      var p :| 0 <= p < |places| && places[p] == e && owner[p] == o;
      assert toLogical[p] == e || toLogical[p] == e - experts;
    }
  }

  lemma OneMoreOwner(places: seq<int>, owner: seq<int>, p: nat, d: int)
    requires |places| == |owner| && p < |owner|
    ensures Owners(places[..p + 1], owner[..p + 1], d)
         == Owners(places[..p], owner[..p], d) + if places[p] == d then {owner[p]} else {}
  {
    var a, b := Owners(places[..p + 1], owner[..p + 1], d), Owners(places[..p], owner[..p], d);
    forall x | x in b ensures x in a {
      var q :| 0 <= q < p && places[..p][q] == d && owner[..p][q] == x;
      assert places[..p + 1][q] == d && owner[..p + 1][q] == x;
    }
    if places[p] == d {
      assert places[..p + 1][p] == d && owner[..p + 1][p] == owner[p];
    }
    forall x | x in a ensures x in b || (places[p] == d && x == owner[p]) {
      var q :| 0 <= q < p + 1 && places[..p + 1][q] == d && owner[..p + 1][q] == x;
      if q < p { assert places[..p][q] == d && owner[..p][q] == x; }
    }
  }

  /** Every logical expert of the layer has its copies on exactly one rank, `ownerOf` says which. */
  ghost predicate SingleOwners(places: seq<int>, owner: seq<int>, ownerOf: seq<int>)
    requires |places| == |owner|
  {
    forall e :: 0 <= e < |ownerOf| ==> Owners(places, owner, e) == {ownerOf[e]}
  }

  /** No expert of the layer is split over ranks or missing. */
  predicate Unsplit(places: seq<int>, owner: seq<int>, experts: nat)
    requires |places| == |owner|
  {
    forall e :: 0 <= e < experts ==> |Owners(places, owner, e)| == 1
  }

  /** The one owner of every expert, or nothing if some expert has none or several. */
  method OwnerIndex(owners: seq<set<int>>, ghost places: seq<int>, ghost owner: seq<int>) returns (r: Option<seq<int>>)
    requires |places| == |owner| && forall e :: 0 <= e < |owners| ==> owners[e] == Owners(places, owner, e)
    ensures r.Some? <==> Unsplit(places, owner, |owners|)
    ensures r.Some? ==> |r.value| == |owners| && SingleOwners(places, owner, r.value)
  {
    var index := [];
    for e := 0 to |owners|
      invariant |index| == e
      invariant forall d :: 0 <= d < e ==> |owners[d]| == 1 && owners[d] == {index[d]}
    {
      if |owners[e]| != 1 {
        assert |Owners(places, owner, e)| != 1;
        return None;
      }
      var holders := owners[e];
      HasMember(holders);
      var o :| o in holders;
      Singleton(holders, o);
      index := index + [o];
    }
    return Some(index);
  }

  lemma HasMember(s: set<int>)
    requires |s| == 1
    ensures exists x :: x in s
  {
    assert (forall x: int :: x !in s) ==> s == {};
  }

  lemma Singleton(s: set<int>, x: int)
    requires |s| == 1 && x in s
    ensures s == {x}
  {
    assert |s - {x}| == 0;
    assert s == {x} + (s - {x});
  }

  /** The places of all layers. */
  function AllPlaces(toLogical: seq<seq<int>>, experts: nat): (r: seq<seq<int>>)
    ensures |r| == |toLogical| && forall l :: 0 <= l < |r| ==> r[l] == Positions(toLogical[l], experts)
  {
    seq(|toLogical|, l requires 0 <= l < |toLogical| => Positions(toLogical[l], experts))
  }

  predicate AllIndexable(toLogical: seq<seq<int>>, experts: nat) {
    forall l :: 0 <= l < |toLogical| ==> Indexable(toLogical[l], experts)
  }

  ghost predicate AllUnsplit(places: seq<seq<int>>, owner: seq<seq<int>>, layers: nat, experts: nat, copies: nat)
    requires Table(places, layers, copies) && Table(owner, layers, copies)
  {
    forall l :: 0 <= l < layers ==> Unsplit(places[l], owner[l], experts)
  }

  /** The unique owners of all layers; the ids of every layer are read before any verdict. */
  method AllOwners(toLogical: seq<seq<int>>, owner: seq<seq<int>>, layers: nat, experts: nat, copies: nat)
    returns (r: Result<Option<seq<seq<int>>>, CheckError>)
    requires Table(toLogical, layers, copies) && Table(owner, layers, copies)
    ensures r.Ok? <==> AllIndexable(toLogical, experts)
    ensures r.Err? ==> r.error == BadLogicalId
    ensures r.Ok? ==>
              && (r.value.Some? <==> AllUnsplit(AllPlaces(toLogical, experts), owner, layers, experts, copies))
              && (r.value.Some? ==>
                    && Table(r.value.value, layers, experts)
                    && forall l :: 0 <= l < layers ==>
                         SingleOwners(AllPlaces(toLogical, experts)[l], owner[l], r.value.value[l]))
  {
    hide Owners;
    var byLayer: seq<seq<set<int>>> := [];
    for l := 0 to layers
      invariant |byLayer| == l
      invariant forall k :: 0 <= k < l ==>
                  && Indexable(toLogical[k], experts) && |byLayer[k]| == experts
                  && forall e :: 0 <= e < experts ==>
                       byLayer[k][e] == Owners(Positions(toLogical[k], experts), owner[k], e)
    {
      var owners := LogicalOwners(toLogical[l], owner[l], experts);
      if owners.Err? { return Err(owners.error); }
      byLayer := byLayer + [owners.value];
    }
    var index: seq<seq<int>> := [];
    for l := 0 to layers
      invariant |index| == l
      invariant forall k :: 0 <= k < l ==>
                  && Unsplit(Positions(toLogical[k], experts), owner[k], experts) && |index[k]| == experts
                  && SingleOwners(Positions(toLogical[k], experts), owner[k], index[k])
    {
      var o := OwnerIndex(byLayer[l], Positions(toLogical[l], experts), owner[l]);
      if o.None? {
        assert !Unsplit(AllPlaces(toLogical, experts)[l], owner[l], experts);
        return Ok(None);
      }
      index := index + [o.value];
    }
    return Ok(Some(index));
  }

  /** `_mapping_check_matches`: no verdict without the maps or with a split expert; otherwise whether the
      logical counts, assigned to the owners, give the same matrix. It raises on a logical id out of range and
      when there are more ranks than the matrix has columns. */
  method MappingCheck(seg: Segment, mapping: array3?<int>, ranks: nat, steps: nat, layers: nat, experts: nat,
                      copies: nat)
    returns (r: Result<Option<bool>, CheckError>, ghost index: seq<seq<int>>)
    requires WellShaped(seg, steps, layers, experts, copies)
    requires mapping != null ==> mapping.Length0 == steps && mapping.Length1 == layers
    ensures mapping == null || seg.toLogical.None? || seg.owner.None? ==> r == Ok(None)
    ensures mapping != null && seg.toLogical.Some? && seg.owner.Some? ==>
              var places := AllPlaces(seg.toLogical.value, experts);
              if !AllIndexable(seg.toLogical.value, experts) then r == Err(BadLogicalId)
              else if !AllUnsplit(places, seg.owner.value, layers, experts, copies) then r == Ok(None)
              else if layers > 0 && ranks > mapping.Length2 then r == Err(BadRank)
              else
                && r.Ok? && r.value.Some? && Table(index, layers, experts)
                && (forall l :: 0 <= l < layers ==> SingleOwners(places[l], seg.owner.value[l], index[l]))
                && (r.value.value <==> Loads(mapping, seg.logical, index, ranks, steps, layers, experts))
  {
    hide AllUnsplit, AllIndexable, SingleOwners, Loads;
    index := [];
    if mapping == null || seg.toLogical.None? || seg.owner.None? { return Ok(None), []; }
    var owners := AllOwners(seg.toLogical.value, seg.owner.value, layers, experts, copies);
    if owners.Err? { return Err(owners.error), []; }
    if owners.value.None? { return Ok(None), []; }
    var found := owners.value.value;
    if layers > 0 && ranks > mapping.Length2 { return Err(BadRank), []; }
    var width := mapping.Length2;
    var m := GroupLoads(seg.logical, found, if layers > 0 then ranks else 0, width, steps, layers, experts);
    var same := forall s, l, g :: 0 <= s < steps && 0 <= l < layers && 0 <= g < width ==>
        m[s, l, g] == mapping[s, l, g];
    SameMatrix(m, mapping, seg.logical, found, ranks, steps, layers, experts, same);
    return Ok(Some(same)), found;
  }

  lemma SameMatrix(m: array3<int>, mapping: array3<int>, counts: Counts, labels: seq<seq<int>>, ranks: nat, steps: nat,
                   layers: nat, experts: nat, same: bool)
    requires Shaped(counts, steps, layers, experts) && Table(labels, layers, experts)
    requires m.Length0 == mapping.Length0 == steps && m.Length1 == mapping.Length1 == layers
    requires m.Length2 == mapping.Length2
    requires Loads(m, counts, labels, if layers > 0 then ranks else 0, steps, layers, experts)
    requires same <==> forall s, l, g :: 0 <= s < steps && 0 <= l < layers && 0 <= g < m.Length2 ==>
                         m[s, l, g] == mapping[s, l, g]
    ensures same <==> Loads(mapping, counts, labels, ranks, steps, layers, experts)
  {}

  /** The logical counts of a segment are its physical ones, summed over copies. */
  ghost predicate Consistent(seg: Segment, steps: nat, layers: nat, experts: nat, copies: nat)
    requires WellShaped(seg, steps, layers, experts, copies)
  {
    && seg.physical.Some? && seg.toLogical.Some? && seg.owner.Some?
    && AllIndexable(seg.toLogical.value, experts)
    && forall s, l :: 0 <= s < steps && 0 <= l < layers ==>
         seg.logical[s][l] == Logical(seg.physical.value[s][l], Positions(seg.toLogical.value[l], experts), experts)
  }

  /** The matrix of a segment and its check, as the plot computes them: a consistent segment without split experts
      passes. */
  method CheckSegment(seg: Segment, ranks: nat, steps: nat, layers: nat, experts: nat, copies: nat)
    returns (m: array3?<int>, r: Result<Option<bool>, CheckError>)
    requires WellShaped(seg, steps, layers, experts, copies)
    ensures Consistent(seg, steps, layers, experts, copies)
            && AllUnsplit(AllPlaces(seg.toLogical.value, experts), seg.owner.value, layers, experts, copies) ==>
              r == Ok(Some(true))
  {
    hide AllUnsplit, AllIndexable, SingleOwners, Loads, Consistent;
    var computed;
    m, computed := RankMatrixOf(seg, ranks, steps, layers, experts, copies);
    ghost var index;
    r, index := MappingCheck(seg, m, ranks, steps, layers, experts, copies);
    ghost var consistent := Consistent(seg, steps, layers, experts, copies);
    if consistent {
      ConsistentParts(seg, steps, layers, experts, copies);
      if AllUnsplit(AllPlaces(seg.toLogical.value, experts), seg.owner.value, layers, experts, copies) {
        ConsistentSegmentPasses(seg, index, m, ranks, steps, layers, experts, copies);
      }
    }
  }

  lemma ConsistentParts(seg: Segment, steps: nat, layers: nat, experts: nat, copies: nat)
    requires WellShaped(seg, steps, layers, experts, copies) && Consistent(seg, steps, layers, experts, copies)
    ensures seg.physical.Some? && seg.toLogical.Some? && seg.owner.Some? && AllIndexable(seg.toLogical.value, experts)
  {}

  /** When logical counts are the physical ones summed over copies, the matrix of the physical counts by owner is
      the one of the logical counts by owner. */
  lemma ConsistentSegmentPasses(seg: Segment, index: seq<seq<int>>, m: array3<int>, ranks: nat, steps: nat, layers: nat,
                                experts: nat, copies: nat)
    requires WellShaped(seg, steps, layers, experts, copies) && Consistent(seg, steps, layers, experts, copies)
    requires Table(index, layers, experts) && m.Length0 == steps && m.Length1 == layers
    requires forall l :: 0 <= l < layers ==>
               SingleOwners(AllPlaces(seg.toLogical.value, experts)[l], seg.owner.value[l], index[l])
    requires Loads(m, seg.physical.value, seg.owner.value, ranks, steps, layers, copies)
    ensures Loads(m, seg.logical, index, ranks, steps, layers, experts)
  {
    forall s, l, g | 0 <= s < steps && 0 <= l < layers && 0 <= g < m.Length2
      ensures m[s, l, g] == if g < ranks then GroupTotal(seg.logical[s][l], index[l], g) else 0
    {
      var places := Positions(seg.toLogical.value[l], experts);
      assert Indexable(seg.toLogical.value[l], experts);
      assert AllPlaces(seg.toLogical.value, experts)[l] == places;
      GroupByOwner(seg.physical.value[s][l], places, seg.owner.value[l], index[l], g);
    }
  }

  lemma GroupByOwner(phys: seq<int>, places: seq<int>, owner: seq<int>, ownerOf: seq<int>, g: int)
    requires |phys| == |places| == |owner| && SingleOwners(places, owner, ownerOf)
    requires forall p :: 0 <= p < |places| ==> 0 <= places[p] < |ownerOf|
    ensures GroupTotal(Logical(phys, places, |ownerOf|), ownerOf, g) == GroupTotal(phys, owner, g)
  {
    forall p | 0 <= p < |phys| ensures owner[p] == ownerOf[places[p]] {
      assert owner[p] in Owners(places, owner, places[p]);
    }
    GroupTwice(phys, places, owner, ownerOf, g);
  }

  /** The verdict over all segments: failed if any failed, else open if any is open. */
  method Overall(checks: seq<Option<bool>>) returns (passed: Option<bool>)
    ensures passed == Some(false) <==> Some(false) in checks
    ensures passed == None <==> Some(false) !in checks && None in checks
  {
    passed := Some(true);
    for i := 0 to |checks|
      invariant passed == Some(false) <==> Some(false) in checks[..i]
      invariant passed == None <==> Some(false) !in checks[..i] && None in checks[..i]
    {
      assert checks[..i + 1] == checks[..i] + [checks[i]];
      assert passed.Some? ==> passed.value == true || passed.value == false;
      if checks[i] == Some(false) {
        passed := Some(false);
      } else if checks[i] == None && passed.Some? && passed.value {
        passed := None;
      }
    }
    assert checks[..|checks|] == checks;
  }
}
