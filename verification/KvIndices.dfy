/** The blocked kernel that flattens per-request page tables into one index list. */
module KvIndices {
  import opened Wrappers

  const BLOCK := 512

  /** `kv_indptr`: zero, then the running sums of the lengths. */
  function IndPtr(lens: seq<nat>, r: nat): nat
    requires r <= |lens|
  {
    if r == 0 then 0 else IndPtr(lens, r - 1) + lens[r - 1]
  }

  /** `tl.cdiv(len, BLOCK_SIZE)` */
  function Blocks(len: nat): (n: nat)
    ensures (n - 1) * 512 < len <= n * 512
  {
    (len + BLOCK - 1) / BLOCK
  }

  /** What one launch reads: a table row per pool index, and for each program a pool index, a length and
      perhaps a start. */
  datatype Launch = Launch(table: seq<seq<int>>, pool: seq<nat>, lens: seq<nat>, starts: Option<seq<nat>>)

  function Start(l: Launch, r: nat): nat
    requires l.starts.Some? ==> r < |l.starts.value|
  {
    if l.starts.Some? then l.starts.value[r] else 0
  }

  /** Every program finds its row, and the row is long enough. */
  predicate Readable(l: Launch) {
    && |l.pool| == |l.lens| && (l.starts.Some? ==> |l.starts.value| == |l.lens|)
    && forall r :: 0 <= r < |l.lens| ==> l.pool[r] < |l.table| && Start(l, r) + l.lens[r] <= |l.table[l.pool[r]]|
  }

  /** The pages of request `r`. */
  function Pages(l: Launch, r: nat): (p: seq<int>)
    requires Readable(l) && r < |l.lens|
    ensures |p| == l.lens[r]
  {
    l.table[l.pool[r]][Start(l, r)..Start(l, r) + l.lens[r]]
  }

  /** The pages of the first `n` requests, one after the other. */
  function Flat(l: Launch, n: nat): (f: seq<int>)
    requires Readable(l) && n <= |l.lens|
    ensures |f| == IndPtr(l.lens, n)
  {
    if n == 0 then [] else Flat(l, n - 1) + Pages(l, n - 1)
  }

  lemma {:induction false} IndPtrGrows(lens: seq<nat>, a: nat, b: nat)
    requires a <= b <= |lens|
    ensures IndPtr(lens, a) <= IndPtr(lens, b)
  {
    if a < b { IndPtrGrows(lens, a, b - 1); }
  }

  lemma {:induction false} FlatAt(l: Launch, n: nat, r: nat, i: nat)
    requires Readable(l) && r < n <= |l.lens| && i < l.lens[r]
    ensures IndPtr(l.lens, r) + i < IndPtr(l.lens, n)
    ensures Flat(l, n)[IndPtr(l.lens, r) + i] == Pages(l, r)[i]
  {
    if r < n - 1 { FlatAt(l, n - 1, r, i); }
  }

  /** Every output cell belongs to one request. */
  lemma {:induction false} OwnerOf(lens: seq<nat>, n: nat, c: nat) returns (r: nat)
    requires n <= |lens| && c < IndPtr(lens, n)
    ensures r < n && IndPtr(lens, r) <= c < IndPtr(lens, r + 1)
  {
    if c < IndPtr(lens, n - 1) { r := OwnerOf(lens, n - 1, c); } else { r := n - 1; }
  }

  // ---- Blocks ----

  /** Block `i` of program `r` writes cell `c`. */
  predicate Writes(lens: seq<nat>, r: nat, i: nat, c: nat) {
    r < |lens| && i < Blocks(lens[r]) && Stored(lens, r, i, BLOCK, c)
  }

  /** The first `n` lanes of block `i` of program `r` store to cell `c`, the mask permitting. */
  predicate Stored(lens: seq<nat>, r: nat, i: nat, n: nat, c: nat)
    requires r < |lens|
  {
    var o := c - IndPtr(lens, r) - i * BLOCK;
    0 <= o < n && i * BLOCK + o < lens[r]
  }

  /** Every cell of the output is written by exactly one block of exactly one program, and nothing else is. */
  lemma WrittenOnce(lens: seq<nat>, c: nat)
    ensures c < IndPtr(lens, |lens|) <==> exists r: nat, i: nat :: Writes(lens, r, i, c)
    ensures forall r: nat, i: nat, q: nat, j: nat :: Writes(lens, r, i, c) && Writes(lens, q, j, c) ==> r == q && i == j
  {
    if c < IndPtr(lens, |lens|) {
      var r := OwnerOf(lens, |lens|, c);
      var o := c - IndPtr(lens, r);
      InSomeBlock(lens[r], o);
      assert Writes(lens, r, o / BLOCK, c);
    }
    forall r: nat, i: nat | Writes(lens, r, i, c)
      ensures IndPtr(lens, r) <= c < IndPtr(lens, r + 1) <= IndPtr(lens, |lens|) {
      IndPtrGrows(lens, r + 1, |lens|);
    }
    forall r: nat, i: nat, q: nat, j: nat | Writes(lens, r, i, c) && Writes(lens, q, j, c) ensures r == q && i == j {
      if r < q { IndPtrGrows(lens, r + 1, q); }
      if q < r { IndPtrGrows(lens, q + 1, r); }
    }
  }

  lemma InSomeBlock(len: nat, o: nat)
    requires o < len
    ensures o / BLOCK < Blocks(len) && o == o / BLOCK * BLOCK + o % BLOCK && o % BLOCK < BLOCK
  {}

  // ---- The kernel ----

  /** The cells of `out` that some block of `done` wrote hold their final value; the others are as they were. */
  ghost predicate Progress(l: Launch, done: seq<(nat, nat)>, was: seq<int>, out: seq<int>)
    requires Readable(l)
  {
    && |out| == |was| == IndPtr(l.lens, |l.lens|)
    && forall c :: 0 <= c < |out| ==>
         out[c] == if Touched(l, done, c) then Flat(l, |l.lens|)[c] else was[c]
  }

  ghost predicate Touched(l: Launch, done: seq<(nat, nat)>, c: nat) {
    exists b :: b in done && Writes(l.lens, b.0, b.1, c)
  }

  /** One iteration of the kernel's loop: a masked load and a masked store. */
  method StoreBlock(l: Launch, r: nat, i: nat, out: array<int>)
    requires Readable(l) && r < |l.lens| && i < Blocks(l.lens[r]) && out.Length == IndPtr(l.lens, |l.lens|)
    modifies out
    ensures forall c :: 0 <= c < out.Length ==>
              out[c] == if Writes(l.lens, r, i, c) then Flat(l, |l.lens|)[c] else old(out[c])
  {
    hide Blocks, Flat, IndPtr, Pages;
    var base := IndPtr(l.lens, r);
    for k := 0 to BLOCK
      invariant forall c :: 0 <= c < out.Length ==>
                  out[c] == if Stored(l.lens, r, i, k, c) then Flat(l, |l.lens|)[c] else old(out[c])
    {
      var offset := i * BLOCK + k;
      if offset < l.lens[r] {
        FlatAt(l, |l.lens|, r, offset);
        PageAt(l, r, offset);
        out[base + offset] := l.table[l.pool[r]][Start(l, r) + offset];
      }
    }
    assert forall c: nat :: Writes(l.lens, r, i, c) <==> Stored(l.lens, r, i, BLOCK, c);
  }

  lemma PageAt(l: Launch, r: nat, o: nat)
    requires Readable(l) && r < |l.lens| && o < l.lens[r]
    ensures Pages(l, r)[o] == l.table[l.pool[r]][Start(l, r) + o]
  {}

  /** `(program, block)` pairs in the order in which the device happens to run them. */
  ghost predicate Complete(lens: seq<nat>, schedule: seq<(nat, nat)>) {
    && (forall b :: b in schedule ==> b.0 < |lens| && b.1 < Blocks(lens[b.0]))
    && (forall r, i :: 0 <= r < |lens| && 0 <= i < Blocks(lens[r]) ==> (r, i) in schedule)
  }

  /** Whatever the order of programs and of blocks among them, the output is the flat list. */
  method Run(l: Launch, schedule: seq<(nat, nat)>, out: array<int>)
    requires Readable(l) && Complete(l.lens, schedule) && out.Length == IndPtr(l.lens, |l.lens|)
    modifies out
    ensures out[..] == Flat(l, |l.lens|)
  {
    hide Blocks, Flat, IndPtr, Writes;
    ghost var was := out[..];
    for n := 0 to |schedule|
      invariant Progress(l, schedule[..n], was, out[..])
    {
      var b := schedule[n];
      assert b in schedule;
      ghost var before := out[..];
      StoreBlock(l, b.0, b.1, out);
      Advance(l, schedule[..n], b, was, before, out[..]);
      assert schedule[..n + 1] == schedule[..n] + [b];
    }
    assert schedule[..|schedule|] == schedule;
    forall c | 0 <= c < out.Length ensures Touched(l, schedule, c) { AllTouched(l, schedule, c); }
  }

  lemma Advance(l: Launch, done: seq<(nat, nat)>, b: (nat, nat), was: seq<int>, before: seq<int>, after: seq<int>)
    requires Readable(l) && Progress(l, done, was, before) && |after| == |before|
    requires forall c :: 0 <= c < |after| ==>
               after[c] == if Writes(l.lens, b.0, b.1, c) then Flat(l, |l.lens|)[c] else before[c]
    ensures Progress(l, done + [b], was, after)
  {
    hide Writes, Flat;
    forall c | 0 <= c < |after|
      ensures after[c] == if Touched(l, done + [b], c) then Flat(l, |l.lens|)[c] else was[c]
    {
      if Writes(l.lens, b.0, b.1, c) {
        assert b in done + [b];
      } else if Touched(l, done, c) {
        var d :| d in done && Writes(l.lens, d.0, d.1, c);
        assert d in done + [b];
      }
    }
  }

  lemma AllTouched(l: Launch, schedule: seq<(nat, nat)>, c: nat)
    requires Complete(l.lens, schedule) && c < IndPtr(l.lens, |l.lens|)
    ensures Touched(l, schedule, c)
  {
    hide Writes, Blocks;
    WrittenOnce(l.lens, c);
    var r: nat, i: nat :| Writes(l.lens, r, i, c);
    WriterInRange(l.lens, r, i, c);
    assert (r, i) in schedule;
    assert Writes(l.lens, (r, i).0, (r, i).1, c);
  }

  lemma WriterInRange(lens: seq<nat>, r: nat, i: nat, c: nat)
    requires Writes(lens, r, i, c)
    ensures r < |lens| && i < Blocks(lens[r])
  {}

  /** `ptr` holds zero and then the sums of ever more lengths. */
  predicate RunningSums(lens: seq<nat>, ptr: seq<nat>) {
    && |ptr| == |lens| + 1 && ptr[0] == 0
    && forall r :: 0 <= r < |lens| ==> ptr[r + 1] == ptr[r] + lens[r]
  }

  lemma {:induction false} RunningSumsAre(lens: seq<nat>, ptr: seq<nat>, r: nat)
    requires RunningSums(lens, ptr) && r <= |lens|
    ensures ptr[r] == IndPtr(lens, r)
  {
    if r > 0 { RunningSumsAre(lens, ptr, r - 1); }
  }

  /** Page `i` of request `r` stands behind the pages of all earlier requests, and is entry `i` of the request's row
      from its start on, or from zero if there are no starts. */
  lemma PageStands(l: Launch, ptr: seq<nat>, r: nat, i: nat)
    requires Readable(l) && RunningSums(l.lens, ptr) && r < |l.lens| && i < l.lens[r]
    ensures |Flat(l, |l.lens|)| == ptr[|l.lens|] && ptr[r] + i < ptr[|l.lens|]
    ensures l.starts.None? ==> Flat(l, |l.lens|)[ptr[r] + i] == l.table[l.pool[r]][i]
    ensures l.starts.Some? ==> Flat(l, |l.lens|)[ptr[r] + i] == l.table[l.pool[r]][l.starts.value[r] + i]
  {
    hide Flat, Pages;
    RunningSumsAre(l.lens, ptr, r);
    RunningSumsAre(l.lens, ptr, |l.lens|);
    FlatAt(l, |l.lens|, r, i);
    PageAt(l, r, i);
  }
}
