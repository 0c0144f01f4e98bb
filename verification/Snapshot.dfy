/** Recording tensor fingerprints during a run and comparing two recordings. */
module Snapshot {
  import opened Wrappers
  import opened Text
  import opened Naming

  /** `(module, call_index, tensor)` */
  datatype Key = Key(moduleName: string, callIndex: int, tensor: string)

  /** What a device hash operator returns: a tensor of words on some device. */
  datatype Words = Words(device: string, values: seq<int>)

  datatype Hash<T> = OnDevice(device: string, bits: int) | OnHost(tensor: T)

  /** `info` stands for shape, stride, dtype, device and element count. */
  datatype Pending<T, I, M> = Pending(key: Key, info: I, algorithm: string, hash: Hash<T>, metadata: M)

  datatype Record<I, M> = Record(key: Key, info: I, algorithm: string, value: string, metadata: M)

  datatype SessionError = Finalized | NothingToCapture | EmptyName | AlreadyWatched | NotATensor | NotAScalar

  /** What the session calls: the optional hash operators of the repository and of torch (nothing if they are not
      there or refuse the tensor), the host hash, `:016x`, and the description of a tensor. */
  datatype Backend<!T, !I> = Backend(
    artifactXor: T -> Option<Words>,
    torchXor: T -> Option<Words>,
    digest: T -> string,
    hex: nat -> string,
    describe: T -> I)

  const ARTIFACT_XOR := "artifact-infer.indexed-xor64.v1"
  const TORCH_XOR := "torch.hash_tensor.xor64.v0"
  const XXH3 := "xxh3-64.logical-bytes.v1"

  /** `_device_hash`: the first operator that answers, which must answer with one word. */
  function DeviceHash<T, I>(b: Backend<T, I>, t: T): Result<Option<(Hash<T>, string)>, SessionError> {
    var own := b.artifactXor(t);
    if own.Some? then Scalar(own.value, ARTIFACT_XOR)
    else
      var torch := b.torchXor(t);
      if torch.Some? then Scalar(torch.value, TORCH_XOR) else Ok(None)
  }

  function Scalar<T>(w: Words, algorithm: string): Result<Option<(Hash<T>, string)>, SessionError> {
    if |w.values| != 1 then Err(NotAScalar) else Ok(Some((OnDevice(w.device, w.values[0]), algorithm)))
  }

  /** What `record` keeps of a tensor until the session is finalized. */
  function Captured<T, I, M>(b: Backend<T, I>, key: Key, t: T, metadata: M): Result<Pending<T, I, M>, SessionError> {
    var h :- DeviceHash(b, t);
    Ok(if h.Some? then Pending(key, b.describe(t), h.value.1, h.value.0, metadata)
       else Pending(key, b.describe(t), XXH3, OnHost(t), metadata))
  }

  /** The repository's operator is asked first, torch's next; where neither answers the host hashes. */
  lemma CapturedIs<T, I, M>(b: Backend<T, I>, key: Key, t: T, metadata: M)
    ensures var own, torch := b.artifactXor(t), b.torchXor(t);
            && (own.Some? && |own.value.values| == 1 ==>
                  Captured(b, key, t, metadata)
                  == Ok(Pending(key, b.describe(t), "artifact-infer.indexed-xor64.v1",
                                OnDevice(own.value.device, own.value.values[0]), metadata)))
            && (own.None? && torch.Some? && |torch.value.values| == 1 ==>
                  Captured(b, key, t, metadata)
                  == Ok(Pending(key, b.describe(t), "torch.hash_tensor.xor64.v0",
                                OnDevice(torch.value.device, torch.value.values[0]), metadata)))
            && (own.None? && torch.None? ==>
                  Captured(b, key, t, metadata)
                  == Ok(Pending(key, b.describe(t), "xxh3-64.logical-bytes.v1", OnHost(t), metadata)))
            && ((own.Some? && |own.value.values| != 1)
                || (own.None? && torch.Some? && |torch.value.values| != 1) ==>
                  Captured(b, key, t, metadata) == Err(NotAScalar))
  {}

  /** What a captured hash reads as in the end: device words as unsigned 64-bit numbers. */
  function ValueOf<T, I>(b: Backend<T, I>, h: Hash<T>): string {
    match h
    case OnDevice(_, bits) => "0x" + b.hex(bits % 0x1_0000_0000_0000_0000)
    case OnHost(tensor) => "0x" + b.digest(tensor)
  }

  function RecordOf<T, I, M>(b: Backend<T, I>, p: Pending<T, I, M>): Record<I, M> {
    Record(p.key, p.info, p.algorithm, ValueOf(b, p.hash), p.metadata)
  }

  function RecordsOf<T, I, M>(b: Backend<T, I>, ps: seq<Pending<T, I, M>>): (r: seq<Record<I, M>>)
    ensures |r| == |ps| && forall i :: 0 <= i < |r| ==> r[i] == RecordOf(b, ps[i])
  {
    seq(|ps|, i requires 0 <= i < |ps| => RecordOf(b, ps[i]))
  }

  /** With a faithful rendering, two device hashes read the same exactly when their 64-bit words are. */
  lemma DeviceValuesAgreeIff<T, I>(b: Backend<T, I>, x: Hash<T>, y: Hash<T>)
    requires x.OnDevice? && y.OnDevice? && forall i: nat, j: nat :: b.hex(i) == b.hex(j) ==> i == j
    ensures ValueOf(b, x) == ValueOf(b, y) <==> (x.bits - y.bits) % 18446744073709551616 == 0
  {
    var p, q := b.hex(x.bits % 18446744073709551616), b.hex(y.bits % 18446744073709551616);
    if "0x" + p == "0x" + q { assert p == ("0x" + p)[2..] == ("0x" + q)[2..] == q; }
    WordsAgreeIff(x.bits, y.bits);
  }

  lemma WordsAgreeIff(x: int, y: int)
    ensures x % 18446744073709551616 == y % 18446744073709551616 <==> (x - y) % 18446744073709551616 == 0
  {}

  predicate DistinctKeys<T, I, M>(ps: seq<Pending<T, I, M>>) {
    forall i, j :: 0 <= i < j < |ps| ==> ps[i].key != ps[j].key
  }

  /** The records of the first tensors of a call, as far as they are accepted. */
  predicate Records<T(==), I(==), M(==)>(
      b: Backend<T, I>, ps: seq<Pending<T, I, M>>, name: string, index: nat, tensors: seq<(string, T)>, metadata: M)
  {
    && |ps| <= |tensors|
    && forall i :: 0 <= i < |ps| ==> Ok(ps[i]) == Captured(b, Key(name, index, tensors[i].0), tensors[i].1, metadata)
  }

  predicate FreshKeys<T, I, M>(ps: seq<Pending<T, I, M>>, calls: map<string, nat>) {
    && DistinctKeys(ps)
    && forall i :: 0 <= i < |ps| ==> ps[i].key.moduleName in calls && ps[i].key.callIndex < calls[ps[i].key.moduleName]
  }

  /** Recording a whole call keeps all keys apart exactly when the names within the call are. */
  lemma CallKeepsKeysFresh<T, I, M>(
      b: Backend<T, I>, ps: seq<Pending<T, I, M>>, added: seq<Pending<T, I, M>>, calls: map<string, nat>, name: string,
      index: nat, tensors: seq<(string, T)>, metadata: M)
    requires FreshKeys(ps, calls) && index == (if name in calls then calls[name] else 0)
    requires Records(b, added, name, index, tensors, metadata)
    ensures DistinctNames(tensors) ==> FreshKeys(ps + added, calls[name := index + 1])
    ensures |added| == |tensors| && FreshKeys(ps + added, calls[name := index + 1]) ==> DistinctNames(tensors)
  {
    var all := ps + added;
    forall i | 0 <= i < |added| ensures added[i].key == Key(name, index, tensors[i].0) {}
    if |added| == |tensors| && DistinctKeys(all) {
      forall i, j | 0 <= i < j < |tensors| ensures tensors[i].0 != tensors[j].0 {
        assert all[|ps| + i] == added[i] && all[|ps| + j] == added[j];
      }
    }
  }

  class Session<T(==, !new), I(==, !new), M(==, !new)> {
    const backend: Backend<T, I>
    var pending: seq<Pending<T, I, M>>
    var watched: set<string>
    var handles: seq<string>
    var calls: map<string, nat>
    var finalized: Option<seq<Record<I, M>>>

    constructor (backend: Backend<T, I>)
      ensures this.backend == backend
      ensures pending == [] && watched == {} && handles == [] && calls == map[] && finalized == None
    {
      this.backend := backend;
      pending, watched, handles, calls, finalized := [], {}, [], map[], None;
    }

    /** Keys are distinct, and those of hooked modules lie below the module's call count. */
    predicate KeysAreFresh()
      reads this
    {
      FreshKeys(pending, calls)
    }

    /** `watch` */
    method Watch(name: string, inputs: bool, outputs: bool) returns (r: Result<(), SessionError>)
      modifies this`watched, this`handles
      ensures r == if finalized.Some? then Err(Finalized)
                   else if !inputs && !outputs then Err(NothingToCapture)
                   else if Strip(name) == "" then Err(EmptyName)
                   else if Strip(name) in old(watched) then Err(AlreadyWatched)
                   else Ok(())
      ensures watched == if r.Ok? then old(watched) + {Strip(name)} else old(watched)
      ensures handles == if r.Ok? then old(handles) + [Strip(name)] else old(handles)
    {
      if finalized.Some? { return Err(Finalized); }
      if !inputs && !outputs { return Err(NothingToCapture); }
      var stripped := Strip(name);
      if stripped == "" { return Err(EmptyName); }
      if stripped in watched { return Err(AlreadyWatched); }
      watched := watched + {stripped};
      handles := handles + [stripped];
      return Ok(());
    }

    /** `record`: refused after finalizing, for anything but a tensor, and when a hash operator does not answer
        with one word; otherwise what is kept is appended. */
    method Add(key: Key, v: Value<T>, metadata: M) returns (r: Result<(), SessionError>)
      modifies this`pending
      ensures r == if finalized.Some? then Err(Finalized)
                   else if !v.Tensor? then Err(NotATensor)
                   else if Captured(backend, key, v.t, metadata).Err? then Err(NotAScalar)
                   else Ok(())
      ensures pending == if r.Ok? then old(pending) + [Captured(backend, key, v.t, metadata).value] else old(pending)
    {
      if finalized.Some? { return Err(Finalized); }
      if !v.Tensor? { return Err(NotATensor); }
      var p := Captured(backend, key, v.t, metadata);
      if p.Err? { return Err(p.error); }
      pending := pending + [p.value];
      return Ok(());
    }

    /** The forward hook: one call index for all tensors of the call, which is used up even if recording fails
        midway. */
    method Capture(name: string, args: seq<Value<T>>, kwargs: Value<T>, result: Value<T>, inputs: bool,
                   outputs: bool, metadata: M)
      returns (r: Result<(), SessionError>, ghost added: seq<Pending<T, I, M>>)
      modifies this`pending, this`calls
      ensures pending == old(pending) + added && calls == old(calls)[name := old(CallsOf(name)) + 1]
      ensures var tensors := (if inputs then Named(Items(args), "input.args") + Named(kwargs, "input.kwargs") else [])
                             + (if outputs then Named(result, "output") else []);
              && Records(backend, added, name, old(CallsOf(name)), tensors, metadata)
              && (r.Ok? <==> |added| == |tensors|)
              && (finalized.Some? ==> added == [])
      ensures old(KeysAreFresh()) && r.Ok? ==>
                (KeysAreFresh() <==> DistinctNames(CallTensors(Items(args), kwargs, result, inputs, outputs)))
      ensures old(KeysAreFresh()) && SeparateCall(args, kwargs, result) ==> KeysAreFresh()
    {
      hide SeparateCall, Records, Captured, FreshKeys, CallTensors, DistinctNames;
      var index := CallsOf(name);
      calls := calls[name := index + 1];
      var tensors := CallTensors(Items(args), kwargs, result, inputs, outputs);
      CallTensorsAre(Items(args), kwargs, result, inputs, outputs);
      r, added := RecordAll(name, index, tensors, metadata);
      if old(KeysAreFresh()) {
        CallKeepsKeysFresh(backend, old(pending), added, old(calls), name, index, tensors, metadata);
        if SeparateCall(args, kwargs, result) {
          CallNamesAreDistinct(args, kwargs, result, inputs, outputs);
        }
      }
    }

    method RecordAll(name: string, index: nat, tensors: seq<(string, T)>, metadata: M)
      returns (r: Result<(), SessionError>, ghost added: seq<Pending<T, I, M>>)
      modifies this`pending
      ensures pending == old(pending) + added
      ensures Records(backend, added, name, index, tensors, metadata)
      ensures r.Ok? <==> |added| == |tensors|
      ensures finalized.Some? ==> added == []
    {
      hide Captured;
      added := [];
      for i := 0 to |tensors|
        invariant pending == old(pending) + added && |added| == i
        invariant Records(backend, added, name, index, tensors, metadata)
        invariant finalized.Some? ==> added == []
      {
        var key := Key(name, index, tensors[i].0);
        r := Add(key, Tensor(tensors[i].1), metadata);
        if r.Err? { return; }
        added := added + [Captured(backend, key, tensors[i].1, metadata).value];
      }
      r := Ok(());
    }

    function CallsOf(name: string): nat
      reads this
    {
      if name in calls then calls[name] else 0
    }

    /** `close`: every hook is removed. */
    method Close()
      modifies this`handles
      ensures handles == []
    {
      handles := [];
    }

    /** `finalize`: hooks are removed; hashes are fetched device by device, yet every record gets its own, in
        recording order. */
    method Finalize() returns (records: seq<Record<I, M>>)
      modifies this`pending, this`finalized, this`handles
      ensures finalized == Some(records)
      ensures old(finalized).Some? ==>
                finalized == old(finalized) && pending == old(pending) && handles == old(handles)
      ensures old(finalized).None? ==>
                records == RecordsOf(backend, old(pending)) && pending == [] && handles == []
      ensures old(finalized).None? ==>
                && |records| == |old(pending)|
                && forall i :: 0 <= i < |records| ==>
                     && records[i].key == old(pending)[i].key
                     && records[i].info == old(pending)[i].info
                     && records[i].algorithm == old(pending)[i].algorithm
                     && records[i].metadata == old(pending)[i].metadata
                     && records[i].value == match old(pending)[i].hash
                                            case OnDevice(_, bits) => "0x" + backend.hex(bits % 18446744073709551616)
                                            case OnHost(tensor) => "0x" + backend.digest(tensor)
    {
      if finalized.Some? { return finalized.value; }
      Close();
      var items := GroupByDevice(pending);
      var values := Fetch(pending, items);
      records := [];
      for i := 0 to |pending|
        invariant pending == old(pending) && finalized == old(finalized)
        invariant records == RecordsOf(backend, pending[..i])
      {
        var p := pending[i];
        var value := "0x" + match p.hash
          case OnDevice(_, _) => backend.hex(values[i])
          case OnHost(tensor) => backend.digest(tensor);
        assert pending[..i + 1] == pending[..i] + [p];
        records := records + [Record(p.key, p.info, p.algorithm, value, p.metadata)];
      }
      assert pending[..|pending|] == pending;
      pending := [];
      finalized := Some(records);
    }
  }

  type DeviceItems = map<string, seq<(nat, int)>>

  /** Every device hash is listed, with its index, under its own device. */
  ghost predicate Groups<T(!new), I(!new), M(!new)>(ps: seq<Pending<T, I, M>>, n: nat, items: DeviceItems)
    requires n <= |ps|
  {
    && (forall i :: 0 <= i < n && ps[i].hash.OnDevice? ==>
          ps[i].hash.device in items && (i, ps[i].hash.bits) in items[ps[i].hash.device])
    && (forall d, k :: d in items && 0 <= k < |items[d]| ==> Lists(ps, n, d, items[d][k]))
  }

  predicate Lists<T, I, M>(ps: seq<Pending<T, I, M>>, n: nat, d: string, x: (nat, int))
    requires n <= |ps|
  {
    0 <= x.0 < n && ps[x.0].hash.OnDevice? && ps[x.0].hash.device == d && ps[x.0].hash.bits == x.1
  }

  method GroupByDevice<T(!new), I(!new), M(!new)>(ps: seq<Pending<T, I, M>>) returns (items: DeviceItems)
    ensures Groups(ps, |ps|, items)
  {
    items := map[];
    for i := 0 to |ps|
      invariant Groups(ps, i, items)
    {
      if ps[i].hash.OnDevice? {
        var d := ps[i].hash.device;
        var sofar := if d in items then items[d] else [];
        items := items[d := sofar + [(i, ps[i].hash.bits)]];
      }
    }
  }

  method Fetch<T(!new), I(!new), M(!new)>(ps: seq<Pending<T, I, M>>, items: DeviceItems) returns (values: map<nat, nat>)
    requires Groups(ps, |ps|, items)
    ensures forall i :: 0 <= i < |ps| && ps[i].hash.OnDevice? ==>
              i in values && values[i] == ps[i].hash.bits % 0x1_0000_0000_0000_0000
  {
    values := map[];
    var rest := items.Keys;
    while rest != {}
      invariant rest <= items.Keys
      invariant forall d, k :: d in items && d !in rest && 0 <= k < |items[d]| ==> Fetched(items[d][k], values)
      invariant forall i :: i in values ==> Right(ps, i, values)
      decreases rest
    {
      var d :| d in rest;
      for k := 0 to |items[d]|
        invariant forall e, j :: e in items && e !in rest && 0 <= j < |items[e]| ==> Fetched(items[e][j], values)
        invariant forall j :: 0 <= j < k ==> Fetched(items[d][j], values)
        invariant forall i :: i in values ==> Right(ps, i, values)
      {
        var x := items[d][k];
        assert Lists(ps, |ps|, d, x);
        values := values[x.0 := x.1 % 0x1_0000_0000_0000_0000];
      }
      rest := rest - {d};
    }
    forall i | 0 <= i < |ps| && ps[i].hash.OnDevice? ensures i in values {
      var d := ps[i].hash.device;
      var k :| 0 <= k < |items[d]| && items[d][k] == (i, ps[i].hash.bits);
      assert Fetched(items[d][k], values);
    }
  }

  predicate Fetched(x: (nat, int), values: map<nat, nat>) {
    x.0 in values
  }

  predicate Right<T, I, M>(ps: seq<Pending<T, I, M>>, i: nat, values: map<nat, nat>) {
    i < |ps| && ps[i].hash.OnDevice? && i in values && values[i] == ps[i].hash.bits % 0x1_0000_0000_0000_0000
  }

  // ---- Comparing ----

  datatype Reason = Missing | Fingerprint | Metadata | Unexpected

  datatype Difference<I, M> = Difference(key: Key, reason: Reason,
    reference: Option<Record<I, M>>, candidate: Option<Record<I, M>>)

  /** `{record.key: record for record in records}.get(key)`: of several records with one key the last. */
  function LastWith<I, M>(rs: seq<Record<I, M>>, key: Key): (r: Option<Record<I, M>>)
    ensures r.None? <==> forall i :: 0 <= i < |rs| ==> rs[i].key != key
    ensures r.Some? ==> r.value in rs && r.value.key == key
  {
    if rs == [] then None
    else if rs[|rs| - 1].key == key then Some(rs[|rs| - 1])
    else LastWith(rs[..|rs| - 1], key)
  }

  predicate SameFingerprint<I(==), M>(a: Record<I, M>, b: Record<I, M>) {
    a.info == b.info && a.algorithm == b.algorithm && a.value == b.value
  }

  /** What is wrong with reference record `a`, if anything. */
  function Wrong<I(==), M(==)>(a: Record<I, M>, candidate: seq<Record<I, M>>): Option<Difference<I, M>> {
    var b := LastWith(candidate, a.key);
    if b.None? then Some(Difference(a.key, Missing, Some(a), None))
    else if !SameFingerprint(a, b.value) then Some(Difference(a.key, Fingerprint, Some(a), b))
    else if a.metadata != b.value.metadata then Some(Difference(a.key, Metadata, Some(a), b))
    else None
  }

  lemma {:induction false} LastWithIs<I, M>(rs: seq<Record<I, M>>, key: Key, i: nat)
    requires i < |rs| && rs[i].key == key && forall j :: i < j < |rs| ==> rs[j].key != key
    ensures LastWith(rs, key) == Some(rs[i])
  {
    if i < |rs| - 1 { LastWithIs(rs[..|rs| - 1], key, i); }
  }

  /** A record without a partner is missing; with the last of its key as partner, a difference in description,
      algorithm or value comes before one in metadata. */
  lemma WrongIs<I, M>(a: Record<I, M>, candidate: seq<Record<I, M>>)
    ensures (forall i :: 0 <= i < |candidate| ==> candidate[i].key != a.key) ==>
              Wrong(a, candidate) == Some(Difference(a.key, Missing, Some(a), None))
    ensures forall i :: 0 <= i < |candidate| && candidate[i].key == a.key
                        && (forall j :: i < j < |candidate| ==> candidate[j].key != a.key) ==>
              var b := candidate[i];
              Wrong(a, candidate)
              == if a.info != b.info || a.algorithm != b.algorithm || a.value != b.value
                 then Some(Difference(a.key, Fingerprint, Some(a), Some(b)))
                 else if a.metadata != b.metadata then Some(Difference(a.key, Metadata, Some(a), Some(b)))
                 else None
  {
    hide LastWith;
    forall i | 0 <= i < |candidate| && candidate[i].key == a.key
               && (forall j :: i < j < |candidate| ==> candidate[j].key != a.key)
      ensures LastWith(candidate, a.key) == Some(candidate[i])
    {
      LastWithIs(candidate, a.key, i);
    }
  }

  predicate HasKey<I, M>(rs: seq<Record<I, M>>, key: Key) {
    exists i :: 0 <= i < |rs| && rs[i].key == key
  }

  /** Every reference record is matched and every candidate key expected. */
  predicate Agree<I(==), M(==)>(reference: seq<Record<I, M>>, candidate: seq<Record<I, M>>) {
    && (forall i :: 0 <= i < |reference| ==> Wrong(reference[i], candidate) == None)
    && (forall i :: 0 <= i < |candidate| ==> HasKey(reference, candidate[i].key))
  }

  /** `first_snapshot_difference` */
  method FirstDifference<I(==), M(==)>(reference: seq<Record<I, M>>, candidate: seq<Record<I, M>>)
    returns (d: Option<Difference<I, M>>)
    ensures d.None? <==> Agree(reference, candidate)
    ensures d.Some? && d.value.reason != Unexpected ==>
              exists i :: 0 <= i < |reference| && d == Wrong(reference[i], candidate)
                          && forall j :: 0 <= j < i ==> Wrong(reference[j], candidate) == None
    ensures d.Some? && d.value.reason == Unexpected ==>
              && (forall i :: 0 <= i < |reference| ==> Wrong(reference[i], candidate) == None)
              && exists i :: 0 <= i < |candidate| && !HasKey(reference, candidate[i].key)
                             && d.value == Difference(candidate[i].key, Unexpected, None, Some(candidate[i]))
                             && forall j :: 0 <= j < i ==> HasKey(reference, candidate[j].key)
  {
    for i := 0 to |reference|
      invariant forall j :: 0 <= j < i ==> Wrong(reference[j], candidate) == None
    {
      var w := Wrong(reference[i], candidate);
      if w.Some? { return w; }
    }
    for i := 0 to |candidate|
      invariant forall j :: 0 <= j < i ==> HasKey(reference, candidate[j].key)
    {
      if !HasKey(reference, candidate[i].key) {
        return Some(Difference(candidate[i].key, Unexpected, None, Some(candidate[i])));
      }
    }
    return None;
  }

  predicate UniqueKeys<I, M>(rs: seq<Record<I, M>>) {
    forall i, j :: 0 <= i < j < |rs| ==> rs[i].key != rs[j].key
  }

  lemma OnlyOneWith<I, M>(rs: seq<Record<I, M>>, i: nat)
    requires UniqueKeys(rs) && i < |rs|
    ensures LastWith(rs, rs[i].key) == Some(rs[i])
  {}

  /** With unique keys there is no difference exactly when both hold the same records, in any order; so the
      comparison is symmetric. */
  lemma AgreeIffSameRecords<I(!new), M(!new)>(a: seq<Record<I, M>>, b: seq<Record<I, M>>)
    requires UniqueKeys(a) && UniqueKeys(b)
    ensures Agree(a, b) <==> forall r :: r in a <==> r in b
    ensures Agree(a, b) <==> Agree(b, a)
  {
    MatchedBothWays(a, b);
    MatchedBothWays(b, a);
  }

  lemma MatchedBothWays<I(!new), M(!new)>(a: seq<Record<I, M>>, b: seq<Record<I, M>>)
    requires UniqueKeys(a) && UniqueKeys(b)
    ensures Agree(a, b) <==> forall r :: r in a <==> r in b
  {
    forall i | 0 <= i < |b| ensures LastWith(b, b[i].key) == Some(b[i]) { OnlyOneWith(b, i); }
    if Agree(a, b) {
      forall r | r in a ensures r in b {
        var i :| 0 <= i < |a| && a[i] == r;
        assert Wrong(a[i], b) == None;
      }
      forall r | r in b ensures r in a {
        var i :| 0 <= i < |b| && b[i] == r;
        assert HasKey(a, b[i].key);
        var j :| 0 <= j < |a| && a[j].key == b[i].key;
        assert Wrong(a[j], b) == None;
      }
    }
    if forall r :: r in a <==> r in b {
      forall i | 0 <= i < |a| ensures Wrong(a[i], b) == None {
        assert a[i] in b;
        var j :| 0 <= j < |b| && b[j] == a[i];
      }
      forall i | 0 <= i < |b| ensures HasKey(a, b[i].key) {
        assert b[i] in a;
      }
    }
  }

  predicate OneRecordPerKey<I(==), M(==)>(a: seq<Record<I, M>>) {
    forall i, j :: 0 <= i < j < |a| && a[i].key == a[j].key ==> a[i] == a[j]
  }

  /** Compared with itself a snapshot shows no difference exactly when records with one key are equal; keys
      recorded by hand need not be distinct. */
  lemma SelfAgreesIff<I, M>(a: seq<Record<I, M>>)
    ensures Agree(a, a) <==> OneRecordPerKey(a)
  {
    hide LastWith;
    if Agree(a, a) {
      forall i, j | 0 <= i < j < |a| && a[i].key == a[j].key ensures a[i] == a[j] {
        assert Wrong(a[i], a) == None && Wrong(a[j], a) == None;
      }
    }
    if OneRecordPerKey(a) {
      forall i | 0 <= i < |a| ensures Wrong(a[i], a) == None && HasKey(a, a[i].key) {
        var b := LastWith(a, a[i].key);
        var j :| 0 <= j < |a| && a[j] == b.value;
        if i < j { assert a[i] == a[j]; }
        if j < i { assert a[j] == a[i]; }
      }
    }
  }
}
