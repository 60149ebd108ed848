/**
  Program execution against an overlay of uncommitted writes (src/wasm_runtime/host_apis.rs,
  the tail of `execute` in src/wasm_runtime/runtime.rs).

  A running program sees the committed state through a map of pending writes.  The reference is
  a program that mutates one map directly: `DirectEffect` and `DirectAnswer`.
 */
module StateOverlay {
  import opened Wrappers
  import opened Crypto
  import opened SparseMerkle
  import opened StateStorage
  import ByteOrder

  type PendingWrites = map<Bytes, Option<Bytes>>

  /** A key is visible when a pending write sets it, or none touches it and it is committed. */
  ghost predicate Visible(base: State, pending: PendingWrites, key: Bytes) {
    if key in pending then pending[key].Some? else key in base
  }

  ghost function VisibleKeys(base: State, pending: PendingWrites): (r: set<Bytes>) {
    set k | k in base.Keys + pending.Keys && Visible(base, pending, k)
  }

  ghost function VisibleValue(base: State, pending: PendingWrites, key: Bytes): (r: Bytes)
    requires Visible(base, pending, key)
  {
    if key in pending then pending[key].value else base[key]
  }

  /** The state a program sees: pending writes hide committed entries. */
  ghost function View(base: State, pending: PendingWrites): (r: State) {
    map k | k in VisibleKeys(base, pending) :: VisibleValue(base, pending, k)
  }

  lemma ViewAfterPut(base: State, pending: PendingWrites, key: Bytes, value: Bytes)
    ensures View(base, pending[key := Some(value)]) == View(base, pending)[key := value]
  {
  }

  lemma ViewAfterDel(base: State, pending: PendingWrites, key: Bytes)
    ensures View(base, pending[key := None]) == View(base, pending) - {key}
  {
  }

  // ------------------------------------------------------------------------------------------
  // The reference: host calls on one map
  // ------------------------------------------------------------------------------------------

  datatype HostCall =
    | Exists(key: Bytes)
    | Len(key: Bytes)
    | Del(key: Bytes)
    | List(prefix: Bytes, capacity: int)
    | Put(key: Bytes, value: Bytes)
    | Get(key: Bytes, capacity: int)
    | Root

  /** What a host call hands back: a return code and, for some calls, data written to the guest. */
  datatype Answer = Code(code: int) | Data(code: int, data: Bytes) | RootHash(root: Digest)

  /** Conversion of a length to a 32-bit signed integer. */
  function AsI32(n: int): (r: int)
    ensures -0x8000_0000 <= r < 0x8000_0000 && (r - n) % 0x1_0000_0000 == 0
    ensures -0x8000_0000 <= n < 0x8000_0000 ==> r == n
  {
    (n + 0x8000_0000) % 0x1_0000_0000 - 0x8000_0000
  }

  /** Conversion of a 32-bit signed capacity to an unsigned 64-bit size. */
  function AsUsize(n: int): (r: int)
    ensures -0x8000_0000 <= n < 0x8000_0000 ==> 0 <= r < 0x1_0000_0000_0000_0000 && (r - n) % 0x1_0000_0000_0000_0000 == 0
  {
    if n < 0 then n + 0x1_0000_0000_0000_0000 else n
  }

  function DirectEffect(state: State, call: HostCall): (r: State) {
    match call
    case Del(k) => state - {k}
    case Put(k, v) => state[k := v]
    case _ => state
  }

  ghost function KeysUnder(state: State, prefix: Bytes): (r: seq<Bytes>) {
    ByteOrder.Listing(set k | k in state && prefix <= k)
  }

  ghost function DirectAnswer(h: Bytes -> KeyHash, state: State, call: HostCall): (r: Answer) {
    match call
    case Exists(k) => Code(if k in state then 1 else 0)
    case Len(k) => Code(if k in state then |state[k]| else -1)
    case Del(k) => Code(0)
    case Put(k, v) => Code(0)
    case Get(k, capacity) =>
      if k !in state then Code(0)
      else if AsI32(|state[k]|) > capacity then Code(-AsI32(|state[k]|))
      else Data(AsI32(|state[k]|), state[k])
    case List(prefix, capacity) =>
      var keys := KeysUnder(state, prefix);
      var total := |EncodeKeys(keys)|;
      if total > AsUsize(capacity) then Code(-AsI32(total)) else Data(AsI32(total), EncodeKeys(keys))
    case Root => RootHash(StateRoot(h, state))
  }

  /** What is put is there, and is got back whole by whoever offers enough room. */
  lemma PutIsRead(h: Bytes -> KeyHash, state: State, key: Bytes, value: Bytes, capacity: int)
    requires |value| < 0x8000_0000
    ensures var after := DirectEffect(state, Put(key, value));
            && DirectAnswer(h, after, Exists(key)) == Code(1) && DirectAnswer(h, after, Len(key)) == Code(|value|)
            && DirectAnswer(h, after, Get(key, capacity)) == (if |value| <= capacity then Data(|value|, value) else Code(-|value|))
            && key in KeysUnder(after, key)
  {
  }

  /** What is deleted is gone. */
  lemma DelIsRead(h: Bytes -> KeyHash, state: State, key: Bytes, prefix: Bytes, capacity: int)
    ensures var after := DirectEffect(state, Del(key));
            && DirectAnswer(h, after, Exists(key)) == Code(0) && DirectAnswer(h, after, Len(key)) == Code(-1)
            && DirectAnswer(h, after, Get(key, capacity)) == Code(0) && key !in KeysUnder(after, prefix)
  {
  }

  /** A call about one key leaves the answers about another as they are, and reading changes nothing. */
  lemma OtherKeysStay(h: Bytes -> KeyHash, state: State, call: HostCall, other: Bytes, capacity: int)
    requires (call.Put? || call.Del?) ==> call.key != other
    ensures var after := DirectEffect(state, call);
            && DirectAnswer(h, after, Exists(other)) == DirectAnswer(h, state, Exists(other))
            && DirectAnswer(h, after, Len(other)) == DirectAnswer(h, state, Len(other))
            && DirectAnswer(h, after, Get(other, capacity)) == DirectAnswer(h, state, Get(other, capacity))
            && (!call.Put? && !call.Del? ==> after == state)
  {
  }

  /** A listing holds exactly the keys that exist under the prefix, in key order, if there is room for it. */
  lemma ListIsExact(h: Bytes -> KeyHash, state: State, prefix: Bytes, key: Bytes)
    ensures key in KeysUnder(state, prefix) <==> prefix <= key && DirectAnswer(h, state, Exists(key)) == Code(1)
    ensures ByteOrder.Ascending(KeysUnder(state, prefix))
  {
  }

  /** The listing is handed over exactly if there is room for it; otherwise the caller learns how much it takes. */
  lemma ListNeedsRoom(h: Bytes -> KeyHash, state: State, prefix: Bytes, capacity: int)
    requires 0 <= capacity < 0x8000_0000 && |EncodeKeys(KeysUnder(state, prefix))| < 0x8000_0000
    ensures var list := EncodeKeys(KeysUnder(state, prefix));
            DirectAnswer(h, state, List(prefix, capacity)) == if |list| <= capacity then Data(|list|, list) else Code(-|list|)
  {
  }

  ghost function DirectState(state: State, calls: seq<HostCall>): (r: State) {
    if calls == [] then state
    else DirectEffect(DirectState(state, calls[..|calls| - 1]), calls[|calls| - 1])
  }

  ghost function DirectAnswers(h: Bytes -> KeyHash, state: State, calls: seq<HostCall>): (r: seq<Answer>) {
    if calls == [] then []
    else
      var n := |calls| - 1;
      DirectAnswers(h, state, calls[..n]) + [DirectAnswer(h, DirectState(state, calls[..n]), calls[n])]
  }

  ghost function KeysTouched(calls: seq<HostCall>): (r: set<Bytes>) {
    set c | c in calls && c.Put? :: c.key
  }

  lemma {:induction false} DirectStateKeys(state: State, calls: seq<HostCall>)
    ensures DirectState(state, calls).Keys <= state.Keys + KeysTouched(calls)
  {
    if calls != [] {
      var n := |calls| - 1;
      assert calls == calls[..n] + [calls[n]];
      DirectStateKeys(state, calls[..n]);
    }
  }

  // ------------------------------------------------------------------------------------------
  // The list format: each key preceded by its length, little-endian
  // ------------------------------------------------------------------------------------------

  function LittleEndian(n: nat): (r: Bytes)
    ensures |r| == 4
  {
    [(n % 256) as byte, (n / 256 % 256) as byte, (n / 65536 % 256) as byte, (n / 16777216 % 256) as byte]
  }

  function FromLittleEndian(b: Bytes): (r: nat)
    requires |b| >= 4
  {
    b[0] as nat + 256 * b[1] as nat + 65536 * b[2] as nat + 16777216 * b[3] as nat
  }

  lemma LittleEndianRoundTrip(n: nat)
    requires n < 0x1_0000_0000
    ensures FromLittleEndian(LittleEndian(n)) == n
  {
    var q1, q2, q3 := n / 256, n / 65536, n / 16777216;
    assert q2 == q1 / 256 && q3 == q2 / 256;
    assert n == n % 256 + 256 * q1;
    assert q1 == q1 % 256 + 256 * q2;
    assert q2 == q2 % 256 + 256 * q3;
    assert q3 == q3 % 256;
  }

  /** The least significant byte comes first. */
  lemma SmallNumbersFirst(n: nat)
    requires n < 256
    ensures LittleEndian(n) == [n as byte, 0, 0, 0] && LittleEndian(256 * n) == [0, n as byte, 0, 0]
  {
  }

  function EncodeKey(key: Bytes): (r: Bytes)
    ensures |r| == 4 + |key|
  {
    LittleEndian(|key|) + key
  }

  function EncodeKeys(keys: seq<Bytes>): (r: Bytes) {
    if keys == [] then [] else EncodeKeys(keys[..|keys| - 1]) + EncodeKey(keys[|keys| - 1])
  }

  /** How a guest reads the list back. */
  function DecodeKeys(data: Bytes): (r: Option<seq<Bytes>>) {
    if data == [] then Some([])
    else if |data| < 4 then None
    else
      var n := FromLittleEndian(data);
      if |data| < 4 + n then None
      else match DecodeKeys(data[4 + n..])
        case None => None
        case Some(rest) => Some([data[4..4 + n]] + rest)
  }

  lemma Associate(x: Bytes, y: Bytes, z: Bytes)
    ensures x + y + z == x + (y + z)
  {
  }

  lemma EncodeSnoc(keys: seq<Bytes>, key: Bytes)
    ensures EncodeKeys(keys + [key]) == EncodeKeys(keys) + EncodeKey(key)
  {
    assert (keys + [key])[..|keys|] == keys;
  }

  lemma {:induction false} EncodeKeysConcat(a: seq<Bytes>, b: seq<Bytes>)
    ensures EncodeKeys(a + b) == EncodeKeys(a) + EncodeKeys(b)
  {
    if b == [] {
      assert a + b == a;
    } else {
      var n := |b| - 1;
      EncodeKeysConcat(a, b[..n]);
      EncodeSnoc(a + b[..n], b[n]);
      EncodeSnoc(b[..n], b[n]);
      assert a + b == a + b[..n] + [b[n]] && b == b[..n] + [b[n]];
      Associate(EncodeKeys(a), EncodeKeys(b[..n]), EncodeKey(b[n]));
    }
  }

  /** The guest recovers exactly the listed keys. */
  lemma {:induction false} ListRoundTrip(keys: seq<Bytes>)
    requires forall i :: 0 <= i < |keys| ==> |keys[i]| < 0x1_0000_0000
    ensures DecodeKeys(EncodeKeys(keys)) == Some(keys)
    decreases |keys|
  {
    if keys != [] {
      var head, rest := keys[0], EncodeKeys(keys[1..]);
      assert keys == [head] + keys[1..];
      EncodeKeysConcat([head], keys[1..]);
      assert EncodeKeys([head]) == EncodeKey(head);
      ListRoundTrip(keys[1..]);
      DecodeHead(head, rest);
    }
  }

  lemma DecodeHead(key: Bytes, rest: Bytes)
    requires |key| < 0x1_0000_0000 && DecodeKeys(rest).Some?
    ensures DecodeKeys(EncodeKey(key) + rest) == Some([key] + DecodeKeys(rest).value)
  {
    var data := EncodeKey(key) + rest;
    LittleEndianRoundTrip(|key|);
    assert data[..4] == LittleEndian(|key|);
    assert FromLittleEndian(data) == FromLittleEndian(data[..4]);
    assert data[4..4 + |key|] == key && data[4 + |key|..] == rest;
  }

  method WriteKeyList(keys: seq<Bytes>) returns (out: Bytes)
    ensures out == EncodeKeys(keys)
  {
    out := [];
    for i := 0 to |keys|
      invariant out == EncodeKeys(keys[..i])
    {
      assert keys[..i + 1][..i] == keys[..i];
      out := out + EncodeKey(keys[i]);
    }
    assert keys[..|keys|] == keys;
  }

  // ------------------------------------------------------------------------------------------
  // The host functions
  // ------------------------------------------------------------------------------------------

  class ExecutionContext {
    const store: StateStore
    const programId: ProgramId
    var pendingWrites: PendingWrites

    ghost function Seen(): (r: State)
      reads this, store
    {
      View(Scope(store.tree, programId), pendingWrites)
    }

    constructor (store: StateStore, programId: ProgramId)
      ensures this.store == store && this.programId == programId && pendingWrites == map[]
      ensures Seen() == Scope(store.tree, programId)
    {
      this.store, this.programId := store, programId;
      pendingWrites := map[];
    }

    method StateExists(key: Bytes) returns (code: int)
      ensures Code(code) == DirectAnswer(store.h, Seen(), Exists(key))
    {
      if key in pendingWrites {
        return if pendingWrites[key].Some? then 1 else 0;
      }
      var value := store.GetScoped(programId, key);
      code := if value.Some? then 1 else 0;
    }

    method StateLen(key: Bytes) returns (code: int)
      ensures Code(code) == DirectAnswer(store.h, Seen(), Len(key))
    {
      if key in pendingWrites {
        return match pendingWrites[key] case Some(v) => |v| case None => -1;
      }
      var value := store.GetScoped(programId, key);
      code := match value case Some(v) => |v| case None => -1;
    }

    method StateDel(key: Bytes) returns (code: int)
      modifies this
      ensures Seen() == old(Seen()) - {key}
      ensures code == 0
    {
      ViewAfterDel(Scope(store.tree, programId), pendingWrites, key);
      pendingWrites := pendingWrites[key := None];
      code := 0;
    }

    method StatePut(key: Bytes, value: Bytes) returns (code: int)
      modifies this
      ensures Seen() == old(Seen())[key := value]
      ensures code == 0
    {
      ViewAfterPut(Scope(store.tree, programId), pendingWrites, key, value);
      pendingWrites := pendingWrites[key := Some(value)];
      code := 0;
    }

    method StateGet(key: Bytes, capacity: int) returns (answer: Answer)
      ensures answer == DirectAnswer(store.h, Seen(), Get(key, capacity))
    {
      var entry: Option<Bytes>;
      if key in pendingWrites {
        entry := pendingWrites[key];
      } else {
        entry := store.GetScoped(programId, key);
      }
      match entry
      case None =>
        answer := Code(0);
      case Some(v) =>
        var len := AsI32(|v|);
        if len > capacity {
          return Code(-len);
        }
        answer := Data(len, v);
    }

    /** The keys under a prefix: pending ones first, then committed ones that are not deleted. */
    method CollectKeys(prefix: Bytes) returns (keys: set<Bytes>)
      ensures keys == set k | k in Seen() && prefix <= k
    {
      keys := set k | k in pendingWrites && pendingWrites[k].Some? && prefix <= k;
      var pairs := store.GetAllScoped(programId);
      LastWritesKeys(pairs);
      ghost var pending := keys;
      for i := 0 to |pairs|
        invariant forall k :: k in keys <==>
                    k in pending || (k in KeysOf(pairs[..i]) && prefix <= k && (k in pendingWrites ==> pendingWrites[k].Some?))
      {
        assert pairs[..i + 1] == pairs[..i] + [pairs[i]];
        var k := pairs[i].0;
        if prefix <= k && !(k in pendingWrites && pendingWrites[k].None?) {
          keys := keys + {k};
        }
      }
      assert pairs[..|pairs|] == pairs;
    }

    method StateList(prefix: Bytes, capacity: int) returns (answer: Answer)
      ensures answer == DirectAnswer(store.h, Seen(), List(prefix, capacity))
    {
      var found := CollectKeys(prefix);
      var keys := ByteOrder.Sort(found);
      var out := WriteKeyList(keys);
      if |out| > AsUsize(capacity) {
        return Code(-AsI32(|out|));
      }
      answer := Data(AsI32(|out|), out);
    }

    /** The pending writes, in an order nothing depends on. */
    method CollectWrites() returns (writes: seq<StateWrite>)
      ensures AsMap(writes) == pendingWrites
    {
      writes := [];
      var todo := pendingWrites.Keys;
      while todo != {}
        invariant todo <= pendingWrites.Keys
        invariant AsMap(writes).Keys == pendingWrites.Keys - todo
        invariant forall k :: k in AsMap(writes) ==> AsMap(writes)[k] == pendingWrites[k]
        decreases |todo|
      {
        var k :| k in todo;
        AsMapSnoc(writes, StateWrite(k, pendingWrites[k]));
        writes := writes + [StateWrite(k, pendingWrites[k])];
        todo := todo - {k};
      }
    }

    method CurrentRoot() returns (root: Digest)
      ensures CollisionFree(store.h, Seen().Keys) ==> root == StateRoot(store.h, Seen())
    {
      var pairs := store.GetAllScoped(programId);
      var base := ToMap(pairs);
      var writes := CollectWrites();
      var merged := MergeWrites(base, writes);
      WritesRealiseView(base, writes);
      root := RootOfMap(store.h, merged);
    }

    /** One host call. */
    method Perform(call: HostCall) returns (answer: Answer)
      modifies this
      ensures Seen() == DirectEffect(old(Seen()), call)
      ensures CollisionFree(store.h, old(Seen()).Keys) ==> answer == DirectAnswer(store.h, old(Seen()), call)
    {
      match call
      case Exists(k) =>
        var c := StateExists(k);
        answer := Code(c);
      case Len(k) =>
        var c := StateLen(k);
        answer := Code(c);
      case Del(k) =>
        var c := StateDel(k);
        answer := Code(c);
      case Put(k, v) =>
        var c := StatePut(k, v);
        answer := Code(c);
      case Get(k, capacity) =>
        answer := StateGet(k, capacity);
      case List(prefix, capacity) =>
        answer := StateList(prefix, capacity);
      case Root =>
        var root := CurrentRoot();
        answer := RootHash(root);
    }

    /** The tail of `execute`: the pending writes in key order. */
    method SortedWrites() returns (writes: seq<StateWrite>)
      ensures ByteOrder.Ascending(KeysWritten(writes))
      ensures AsMap(writes) == pendingWrites
    {
      var keys := ByteOrder.Sort(pendingWrites.Keys);
      writes := [];
      for i := 0 to |keys|
        invariant |writes| == i
        invariant forall j :: 0 <= j < i ==> keys[j] in pendingWrites && writes[j] == StateWrite(keys[j], pendingWrites[keys[j]])
      {
        assert keys[i] in keys;
        writes := writes + [StateWrite(keys[i], pendingWrites[keys[i]])];
      }
      assert KeysWritten(writes) == keys;
      DistinctWritesAsMap(writes, pendingWrites);
    }
  }

  // ------------------------------------------------------------------------------------------
  // From the overlay to the commit
  // ------------------------------------------------------------------------------------------

  function KeysWritten(writes: seq<StateWrite>): (r: seq<Bytes>)
    ensures |r| == |writes| && forall i :: 0 <= i < |r| ==> r[i] == writes[i].key
  {
    seq(|writes|, i requires 0 <= i < |writes| => writes[i].key)
  }

  function AsMap(writes: seq<StateWrite>): (r: PendingWrites) {
    if writes == [] then map[]
    else
      var last := writes[|writes| - 1];
      AsMap(writes[..|writes| - 1])[last.key := last.value]
  }

  lemma AsMapSnoc(writes: seq<StateWrite>, w: StateWrite)
    ensures AsMap(writes + [w]) == AsMap(writes)[w.key := w.value]
  {
  }

  lemma {:induction false} AsMapMember(writes: seq<StateWrite>, k: Bytes)
    ensures k in AsMap(writes) <==> k in KeysWritten(writes)
    ensures k in AsMap(writes) ==> StateWrite(k, AsMap(writes)[k]) in writes
  {
    if writes != [] {
      var n := |writes| - 1;
      assert writes == writes[..n] + [writes[n]];
      assert KeysWritten(writes) == KeysWritten(writes[..n]) + [writes[n].key];
      AsMapMember(writes[..n], k);
    }
  }

  lemma DistinctWritesAsMap(writes: seq<StateWrite>, pending: PendingWrites)
    requires forall i :: 0 <= i < |writes| ==> writes[i].key in pending && writes[i].value == pending[writes[i].key]
    requires forall k :: k in pending <==> k in KeysWritten(writes)
    ensures AsMap(writes) == pending
  {
    forall k: Bytes
      ensures k in AsMap(writes) <==> k in pending
      ensures k in AsMap(writes) && k in pending ==> AsMap(writes)[k] == pending[k]
    {
      AsMapMember(writes, k);
    }
  }

  /** Applying the collected writes one by one gives the state the program saw. */
  lemma {:induction false} WritesRealiseView(base: State, writes: seq<StateWrite>)
    ensures ApplyWrites(base, writes) == View(base, AsMap(writes))
  {
    if writes != [] {
      var n := |writes| - 1;
      WritesRealiseView(base, writes[..n]);
      match writes[n].value {
        case Some(v) => ViewAfterPut(base, AsMap(writes[..n]), writes[n].key, v);
        case None => ViewAfterDel(base, AsMap(writes[..n]), writes[n].key);
      }
    }
  }

  datatype Outcome = Outcome(writes: seq<StateWrite>, root: Digest)

  /**
    Running a program: whatever sequence of host calls it makes, it is answered as if it mutated
    the program's state directly, and nothing in the store changes.
   */
  method Execute(store: StateStore, programId: ProgramId, calls: seq<HostCall>)
      returns (answers: seq<Answer>, outcome: Outcome)
    requires CollisionFree(store.h, Scope(store.tree, programId).Keys + KeysTouched(calls))
    ensures answers == DirectAnswers(store.h, Scope(store.tree, programId), calls)
    ensures ApplyWrites(Scope(store.tree, programId), outcome.writes) == DirectState(Scope(store.tree, programId), calls)
    ensures ByteOrder.Ascending(KeysWritten(outcome.writes))
    ensures outcome.root == StateRoot(store.h, DirectState(Scope(store.tree, programId), calls))
  {
    ghost var base := Scope(store.tree, programId);
    var ctx := new ExecutionContext(store, programId);
    answers := [];
    for i := 0 to |calls|
      invariant ctx.store == store && ctx.programId == programId && fresh(ctx)
      invariant ctx.Seen() == DirectState(base, calls[..i])
      invariant answers == DirectAnswers(store.h, base, calls[..i])
    {
      assert calls[..i + 1][..i] == calls[..i];
      DirectStateKeys(base, calls[..i]);
      assert KeysTouched(calls[..i]) <= KeysTouched(calls);
      var answer := ctx.Perform(calls[i]);
      answers := answers + [answer];
    }
    assert calls[..|calls|] == calls;
    DirectStateKeys(base, calls);
    var writes := ctx.SortedWrites();
    WritesRealiseView(base, writes);
    var root := ctx.CurrentRoot();
    outcome := Outcome(writes, root);
  }

  /**
    Executing and then committing: the root the execution announced, the root a verifier predicts
    from the writes, and the root of the store after they are applied are one root.  No other
    program's entries change.
   */
  method ExecuteThenCommit(store: StateStore, programId: ProgramId, calls: seq<HostCall>)
      returns (outcome: Outcome, predicted: Digest, applied: Digest)
    requires CollisionFree(store.h, Scope(store.tree, programId).Keys + KeysTouched(calls))
    modifies store
    ensures Scope(store.tree, programId) == DirectState(Scope(old(store.tree), programId), calls)
    ensures outcome.root == predicted == applied == StateRoot(store.h, Scope(store.tree, programId))
    ensures OthersUnchanged(old(store.tree), store.tree, programId)
  {
    var answers;
    answers, outcome := Execute(store, programId, calls);
    DirectStateKeys(Scope(store.tree, programId), calls);
    predicted := ComputeRootAfterWrites(store, programId, outcome.writes);
    ApplyStateWrites(store, programId, outcome.writes);
    applied := store.SparseRootScoped(programId);
  }
}
