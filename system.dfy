/** The sysctl gateway of vyos.utils.system: reading a kernel tunable,
    a verified write of one tunable, and a batch apply with best-effort
    rollback. The kernel is an abstract key-to-value store; the external
    `sysctl` process is replaced by that store and by `SetCommand`, which
    says how the kernel answers an assignment. */
module System {
  import Decimal

  /** A kernel tunable store: key to the text `sysctl -nb key` prints. */
  type Store = map<string, string>

  /** What `sysctl -nb name` prints: the value, or nothing at all for a key
      the kernel does not have (the exit status is not looked at). */
  function Lookup(store: Store, name: string): string {
    if name in store then store[name] else ""
  }

  /** A value handed to `sysctl_write`: a string, or an int. */
  datatype Value = Str(s: string) | Int(n: int)

  /** The string a value is compared against and sent as: strings as they
      are, ints through `str`. */
  function ValueString(v: Value): (s: string)
    ensures v.Str? ==> s == v.s
    ensures v.Int? ==> |s| >= 1 && (s[0] == '-') == (v.n < 0)
  {
    match v
    case Str(s) => s
    case Int(n) => Decimal.IntToString(n)
  }

  /** An int is compared against and sent as its decimal text, which reads
      back as the same int; distinct ints never become the same text. */
  lemma ValueStringInt(n: int, m: int)
    ensures Decimal.ParseInt(ValueString(Int(n))) == Decimal.Some(n)
    ensures ValueString(Int(n)) == ValueString(Int(m)) ==> n == m
    ensures ValueString(Int(5)) == "5"
  {
    Decimal.IntToStringRoundTrip(n);
    Decimal.IntToStringInjective(n, m);
    assert Decimal.NatDigits(5) == "5";
  }

  /** A command sent to the `sysctl` executable: a read of one key, or an
      assignment `name=value`. */
  datatype Command = Get(name: string) | Set(name: string, value: string)

  /** How the kernel answers `sysctl -wq name=value`: whether the command
      exits with status 0, and, when it does, the value the kernel then
      holds, which may differ from the one requested (clamping, rounding). */
  datatype SetCommand = SetCommand(accepts: (string, string) -> bool, coerce: (string, string) -> string)

  /** The result of a gateway call: its boolean answer, the kernel store
      afterwards and the commands it sent, in order. */
  datatype Outcome = Outcome(ok: bool, store: Store, issued: seq<Command>)

  /** The store after the set command `name=value`. */
  function AfterSet(cmd: SetCommand, store: Store, name: string, value: string): Store {
    if cmd.accepts(name, value) then store[name := cmd.coerce(name, value)] else store
  }

  /** `sysctl_write(name, value)` on the store `store`. */
  function WriteOutcome(cmd: SetCommand, store: Store, name: string, value: Value): (r: Outcome)
    // a True answer is a verified write, and a False one means the key does not hold the value
    ensures r.ok <==> Lookup(r.store, name) == ValueString(value)
  {
    var v := ValueString(value);
    if Lookup(store, name) == v then Outcome(true, store, [Get(name)])
    else if !cmd.accepts(name, v) then Outcome(false, store, [Get(name), Set(name, v)])
    else
      var after := AfterSet(cmd, store, name, v);
      Outcome(Lookup(after, name) == v, after, [Get(name), Set(name, v), Get(name)])
  }

  /** A value already in place: True after one read, no set command, and
      nothing changed. */
  lemma WriteNoOp(cmd: SetCommand, store: Store, name: string, value: Value)
    requires Lookup(store, name) == ValueString(value)
    ensures WriteOutcome(cmd, store, name, value) == Outcome(true, store, [Get(name)])
  {
  }

  /** A key the kernel does not have reads as "", so writing "" to it
      answers True after one read, without a set command. */
  lemma MissingKeyReadsEmpty(cmd: SetCommand, store: Store, name: string)
    requires name !in store
    ensures Lookup(store, name) == ""
    ensures WriteOutcome(cmd, store, name, Str("")) == Outcome(true, store, [Get(name)])
  {
  }

  /** Any other value: the read is followed by the set command, carrying the
      converted value. */
  lemma WriteSends(cmd: SetCommand, store: Store, name: string, value: Value)
    requires Lookup(store, name) != ValueString(value)
    ensures var r := WriteOutcome(cmd, store, name, value);
      |r.issued| >= 2 && r.issued[..2] == [Get(name), Set(name, ValueString(value))]
  {
  }

  /** A set command that exits non-zero: False at once, the store unchanged,
      and no second read. */
  lemma WriteRejected(cmd: SetCommand, store: Store, name: string, value: Value)
    requires Lookup(store, name) != ValueString(value)
    requires !cmd.accepts(name, ValueString(value))
    ensures WriteOutcome(cmd, store, name, value) == Outcome(false, store, [Get(name), Set(name, ValueString(value))])
  {
  }

  /** A kernel that accepts the command but holds something else than was
      asked: False, with the coerced value left in place. */
  lemma WriteCoerced(cmd: SetCommand, store: Store, name: string, value: Value)
    requires Lookup(store, name) != ValueString(value)
    requires cmd.accepts(name, ValueString(value)) && cmd.coerce(name, ValueString(value)) != ValueString(value)
    ensures var r := WriteOutcome(cmd, store, name, value);
      !r.ok && Lookup(r.store, name) == cmd.coerce(name, ValueString(value))
  {
  }

  /** `sysctl_write` reads, sets and changes `name` only: every other key
      keeps its value, or stays absent. */
  lemma WriteFrame(cmd: SetCommand, store: Store, name: string, value: Value, key: string)
    requires key != name
    ensures var r := WriteOutcome(cmd, store, name, value);
      (key in r.store <==> key in store) && Lookup(r.store, key) == Lookup(store, key)
      && forall c :: c in r.issued ==> c.name == name
  {
  }

  /** A `dict[str, ...]` as the list of its items in insertion order. */
  type Batch = seq<(string, Value)>

  /** A dict never holds the same key twice. */
  predicate DistinctKeys(batch: Batch) {
    forall i, j :: 0 <= i < j < |batch| ==> batch[i].0 != batch[j].0
  }

  /** The reads with which `sysctl_apply` takes its snapshot, one per key in order. */
  function Reads(batch: Batch): (cs: seq<Command>)
    ensures |cs| == |batch| && forall i :: 0 <= i < |batch| ==> cs[i] == Get(batch[i].0)
    decreases |batch|
  {
    if batch == [] then [] else Reads(batch[..|batch| - 1]) + [Get(batch[|batch| - 1].0)]
  }

  /** `sysctl_original`: each key of the batch, in order, with the value it
      held before anything was written. */
  function Snapshot(store: Store, batch: Batch): (snap: Batch)
    ensures |snap| == |batch|
    ensures forall i :: 0 <= i < |batch| ==> snap[i] == (batch[i].0, Str(Lookup(store, batch[i].0)))
    decreases |batch|
  {
    if batch == [] then []
    else Snapshot(store, batch[..|batch| - 1]) + [(batch[|batch| - 1].0, Str(Lookup(store, batch[|batch| - 1].0)))]
  }

  /** The forward pass of `sysctl_apply`: write the items in order and stop
      at the first write that answers False. */
  function ForwardOutcome(cmd: SetCommand, store: Store, batch: Batch): (r: Outcome)
    decreases |batch|
  {
    if batch == [] then Outcome(true, store, [])
    else
      var p := ForwardOutcome(cmd, store, batch[..|batch| - 1]);
      if !p.ok then p
      else
        var w := WriteOutcome(cmd, p.store, batch[|batch| - 1].0, batch[|batch| - 1].1);
        Outcome(w.ok, w.store, p.issued + w.issued)
  }

  /** `sysctl_apply(batch, revert)`. The rollback applies the snapshot with
      `revert` false, so it never rolls back in turn: the recursion is one
      level deep at most. */
  function ApplyOutcome(cmd: SetCommand, store: Store, batch: Batch, revert: bool): (r: Outcome)
    // True exactly when every write of the forward pass answered True
    ensures r.ok == ForwardOutcome(cmd, store, batch).ok
    // every key is read, in order, before anything is written
    ensures |r.issued| >= |batch| && r.issued[..|batch|] == Reads(batch)
    // without `revert` the forward pass is all that happens
    ensures !revert ==> r == Outcome(r.ok, ForwardOutcome(cmd, store, batch).store, Reads(batch) + ForwardOutcome(cmd, store, batch).issued)
    decreases if revert then 1 else 0
  {
    var snap := Snapshot(store, batch);
    var f := ForwardOutcome(cmd, store, batch);
    if f.ok then Outcome(true, f.store, Reads(batch) + f.issued)
    else if revert then
      var rollback := ApplyOutcome(cmd, f.store, snap, false);
      Outcome(false, rollback.store, Reads(batch) + f.issued + rollback.issued)
    else Outcome(false, f.store, Reads(batch) + f.issued)
  }

  /** Once a write has failed, later items are never written: the pass over
      a longer batch ends exactly as the pass over the failed prefix. */
  lemma {:induction false} ForwardStopsAtFailure(cmd: SetCommand, store: Store, prefix: Batch, rest: Batch)
    requires !ForwardOutcome(cmd, store, prefix).ok
    ensures ForwardOutcome(cmd, store, prefix + rest) == ForwardOutcome(cmd, store, prefix)
    decreases |rest|
  {
    if rest == [] {
      assert prefix + rest == prefix;
    } else {
      var shorter := rest[..|rest| - 1];
      assert (prefix + rest)[..|prefix + rest| - 1] == prefix + shorter;
      ForwardStopsAtFailure(cmd, store, prefix, shorter);
    }
  }

  /** Item `i` is where the pass over `batch` failed: every item before it
      was written successfully, its own write answered False, and the pass
      ends exactly as the pass over the items up to `i`. */
  ghost predicate FailsFirstAt(cmd: SetCommand, store: Store, batch: Batch, i: int)
    requires 0 <= i < |batch|
  {
    ForwardOutcome(cmd, store, batch[..i]).ok
    && !WriteOutcome(cmd, ForwardOutcome(cmd, store, batch[..i]).store, batch[i].0, batch[i].1).ok
    && ForwardOutcome(cmd, store, batch) == ForwardOutcome(cmd, store, batch[..i + 1])
  }

  /** A failed pass has a first failing item: every item before it was
      written successfully, and nothing after it was attempted. */
  lemma {:induction false} ForwardFirstFailure(cmd: SetCommand, store: Store, batch: Batch)
    requires !ForwardOutcome(cmd, store, batch).ok
    ensures exists i :: 0 <= i < |batch| && FailsFirstAt(cmd, store, batch, i)
    decreases |batch|
  {
    var n := |batch| - 1;
    var prefix := batch[..n];
    assert batch[..n + 1] == batch;
    if ForwardOutcome(cmd, store, prefix).ok {
      assert FailsFirstAt(cmd, store, batch, n);
    } else {
      ForwardFirstFailure(cmd, store, prefix);
      var i :| 0 <= i < |prefix| && FailsFirstAt(cmd, store, prefix, i);
      assert prefix[..i] == batch[..i] && prefix[..i + 1] == batch[..i + 1] && prefix[i] == batch[i];
      assert ForwardOutcome(cmd, store, batch) == ForwardOutcome(cmd, store, prefix);
      assert FailsFirstAt(cmd, store, batch, i);
    }
  }

  /** `key` is not among the keys of `batch`. */
  predicate NotInBatch(batch: Batch, key: string) {
    forall i :: 0 <= i < |batch| ==> batch[i].0 != key
  }

  /** The forward pass reads and sets only keys of the batch, and a key
      outside the batch keeps its value (or stays absent). */
  lemma {:induction false} ForwardFrame(cmd: SetCommand, store: Store, batch: Batch, key: string)
    requires NotInBatch(batch, key)
    ensures var r := ForwardOutcome(cmd, store, batch);
      (key in r.store <==> key in store) && Lookup(r.store, key) == Lookup(store, key)
      && forall c :: c in r.issued ==> c.name != key
    decreases |batch|
  {
    if batch != [] {
      var n := |batch| - 1;
      assert NotInBatch(batch[..n], key) by {
        forall i | 0 <= i < n ensures batch[..n][i].0 != key {
          assert batch[..n][i] == batch[i];
        }
      }
      ForwardFrame(cmd, store, batch[..n], key);
      assert batch[n].0 != key;
    }
  }

  /** `sysctl_apply`, rollback included, reads and sets only keys of the
      dict, and a key outside it keeps its value (or stays absent). */
  lemma ApplyFrame(cmd: SetCommand, store: Store, batch: Batch, revert: bool, key: string)
    requires NotInBatch(batch, key)
    ensures var r := ApplyOutcome(cmd, store, batch, revert);
      (key in r.store <==> key in store) && Lookup(r.store, key) == Lookup(store, key)
      && forall c :: c in r.issued ==> c.name != key
  {
    var f := ForwardOutcome(cmd, store, batch);
    var snap := Snapshot(store, batch);
    ForwardFrame(cmd, store, batch, key);
    assert forall c :: c in Reads(batch) ==> c.name != key;
    if !f.ok && revert {
      assert NotInBatch(snap, key);
      ForwardFrame(cmd, f.store, snap, key);
      assert forall c :: c in Reads(snap) ==> c.name != key;
    }
  }

  /** After a successful pass over a dict, every key holds the value it was
      given: a later write never disturbs an earlier key. */
  lemma {:induction false} ForwardOkHoldsAll(cmd: SetCommand, store: Store, batch: Batch)
    requires DistinctKeys(batch)
    requires ForwardOutcome(cmd, store, batch).ok
    ensures forall i :: 0 <= i < |batch| ==>
      Lookup(ForwardOutcome(cmd, store, batch).store, batch[i].0) == ValueString(batch[i].1)
    decreases |batch|
  {
    if batch != [] {
      var n := |batch| - 1;
      var prefix := batch[..n];
      var p := ForwardOutcome(cmd, store, prefix);
      ForwardOkHoldsAll(cmd, store, prefix);
      var w := WriteOutcome(cmd, p.store, batch[n].0, batch[n].1);
      forall i | 0 <= i < |batch|
        ensures Lookup(w.store, batch[i].0) == ValueString(batch[i].1)
      {
        if i < n {
          assert prefix[i] == batch[i];
          WriteFrame(cmd, p.store, batch[n].0, batch[n].1, batch[i].0);
        }
      }
    }
  }

  /** A True answer from `sysctl_apply` means every key of the dict holds
      its requested value, whatever `revert` was. */
  lemma ApplyOkHoldsAll(cmd: SetCommand, store: Store, batch: Batch, revert: bool)
    requires DistinctKeys(batch)
    requires ApplyOutcome(cmd, store, batch, revert).ok
    ensures forall i :: 0 <= i < |batch| ==>
      Lookup(ApplyOutcome(cmd, store, batch, revert).store, batch[i].0) == ValueString(batch[i].1)
  {
    ForwardOkHoldsAll(cmd, store, batch);
  }

  /** When the forward pass fails and the rollback itself succeeds, every key
      of the dict is back at the value it held before the call. */
  lemma RollbackRestores(cmd: SetCommand, store: Store, batch: Batch)
    requires DistinctKeys(batch)
    requires !ForwardOutcome(cmd, store, batch).ok
    requires ApplyOutcome(cmd, ForwardOutcome(cmd, store, batch).store, Snapshot(store, batch), false).ok
    ensures !ApplyOutcome(cmd, store, batch, true).ok
    ensures forall i :: 0 <= i < |batch| ==>
      Lookup(ApplyOutcome(cmd, store, batch, true).store, batch[i].0) == Lookup(store, batch[i].0)
  {
    var snap := Snapshot(store, batch);
    var f := ForwardOutcome(cmd, store, batch);
    ApplyOkHoldsAll(cmd, f.store, snap, false);
    forall i | 0 <= i < |batch|
      ensures Lookup(ApplyOutcome(cmd, store, batch, true).store, batch[i].0) == Lookup(store, batch[i].0)
    {
      assert snap[i] == (batch[i].0, Str(Lookup(store, batch[i].0)));
    }
  }

  /** A pass over a dict whose every key already holds its value writes
      nothing: it reads each key once and leaves the store as it is. */
  lemma {:induction false} ForwardAllInPlace(cmd: SetCommand, store: Store, batch: Batch)
    requires forall i :: 0 <= i < |batch| ==> Lookup(store, batch[i].0) == ValueString(batch[i].1)
    ensures ForwardOutcome(cmd, store, batch) == Outcome(true, store, Reads(batch))
    decreases |batch|
  {
    if batch != [] {
      var prefix := batch[..|batch| - 1];
      ForwardAllInPlace(cmd, store, prefix);
    }
  }

  /** Applying a dict a second time after it succeeded sends no set command
      and changes nothing. */
  lemma ApplyIdempotent(cmd: SetCommand, store: Store, batch: Batch, revert: bool, revertAgain: bool)
    requires DistinctKeys(batch)
    requires ApplyOutcome(cmd, store, batch, revert).ok
    ensures var after := ApplyOutcome(cmd, store, batch, revert).store;
      var again := ApplyOutcome(cmd, after, batch, revertAgain);
      again.ok && again.store == after && forall c :: c in again.issued ==> c.Get?
  {
    var after := ApplyOutcome(cmd, store, batch, revert).store;
    ApplyOkHoldsAll(cmd, store, batch, revert);
    ForwardAllInPlace(cmd, after, batch);
  }

  /** A kernel that refuses any assignment to "B" and stores every other
      value as given. */
  const RefuseB := SetCommand((k: string, v: string) => k != "B", (k: string, v: string) => v)

  /** The forward pass of {"A": "1", "B": "2"} against `RefuseB`: A is
      written and checked, B's set command fails. */
  lemma RefuseBForward()
    ensures var store := map["A" := "0", "B" := "0"];
      ForwardOutcome(RefuseB, store, [("A", Str("1")), ("B", Str("2"))]) ==
        Outcome(false, store["A" := "1"], [Get("A"), Set("A", "1"), Get("A"), Get("B"), Set("B", "2")])
  {
  }

  /** The rollback pass of that example: A is set back to "0", B already
      holds "0" and is only read. */
  lemma RefuseBRollback()
    ensures var store := map["A" := "0", "B" := "0"];
      ForwardOutcome(RefuseB, store["A" := "1"], [("A", Str("0")), ("B", Str("0"))]) ==
        Outcome(true, store, [Get("A"), Set("A", "0"), Get("A"), Get("B")])
  {
  }

  /** Applying {"A": "1", "B": "2"} with `revert` against `RefuseB`: A is
      written, B fails, the rollback restores A, and the answer is False. */
  lemma RollbackExample()
    ensures var store := map["A" := "0", "B" := "0"];
      var r := ApplyOutcome(RefuseB, store, [("A", Str("1")), ("B", Str("2"))], true);
      !r.ok && r.store == store && |r.issued| == 13
      && r.issued[2..7] == [Get("A"), Set("A", "1"), Get("A"), Get("B"), Set("B", "2")]
      && r.issued[7..] == [Get("A"), Get("B"), Get("A"), Set("A", "0"), Get("A"), Get("B")]
  {
    var store := map["A" := "0", "B" := "0"];
    var batch := [("A", Str("1")), ("B", Str("2"))];
    var snap := Snapshot(store, batch);
    assert snap == [("A", Str("0")), ("B", Str("0"))];
    assert Reads(batch) == [Get("A"), Get("B")] by {
      assert batch[..1] == [("A", Str("1"))];
    }
    assert Reads(snap) == [Get("A"), Get("B")] by {
      assert snap[..1] == [("A", Str("0"))];
    }
    RefuseBForward();
    RefuseBRollback();
  }

  /** Concatenation of command traces is associative. */
  lemma SeqAssoc<T>(a: seq<T>, b: seq<T>, c: seq<T>)
    ensures a + b + c == a + (b + c)
  {
  }

  /** One step of the forward pass: the pass over the first `i + 1` items
      is the pass over the first `i`, followed, when that succeeded, by the
      write of item `i`. */
  lemma ForwardStep(cmd: SetCommand, store: Store, batch: Batch, i: nat)
    requires i < |batch|
    ensures var p := ForwardOutcome(cmd, store, batch[..i]);
      var w := WriteOutcome(cmd, p.store, batch[i].0, batch[i].1);
      ForwardOutcome(cmd, store, batch[..i + 1]) == if p.ok then Outcome(w.ok, w.store, p.issued + w.issued) else p
  {
    assert batch[..i + 1][..i] == batch[..i];
  }

  /** What `sysctl_apply` ends with when the write of item `i` is the one
      that fails. */
  lemma ApplyAfterFailure(cmd: SetCommand, store: Store, batch: Batch, i: nat, revert: bool)
    requires i < |batch|
    requires !ForwardOutcome(cmd, store, batch[..i + 1]).ok
    ensures var f := ForwardOutcome(cmd, store, batch[..i + 1]);
      var rollback := ApplyOutcome(cmd, f.store, Snapshot(store, batch), false);
      ApplyOutcome(cmd, store, batch, revert) ==
        if revert then Outcome(false, rollback.store, Reads(batch) + f.issued + rollback.issued)
        else Outcome(false, f.store, Reads(batch) + f.issued)
  {
    assert batch[..i + 1] + batch[i + 1..] == batch;
    ForwardStopsAtFailure(cmd, store, batch[..i + 1], batch[i + 1..]);
  }

  /** The kernel as the gateway sees it: the tunables it holds, how it
      answers the set command, and (for the proofs) every command sent to
      the `sysctl` executable so far. */
  class Kernel {
    var store: Store
    const setCommand: SetCommand
    ghost var issued: seq<Command>

    constructor (store: Store, setCommand: SetCommand)
      ensures this.store == store && this.setCommand == setCommand && issued == []
    {
      this.store := store;
      this.setCommand := setCommand;
      issued := [];
    }

    /** `sysctl_read`: `sysctl -nb name`. */
    method Read(name: string) returns (value: string)
      modifies this`issued
      ensures value == Lookup(store, name)
      ensures issued == old(issued) + [Get(name)]
    {
      value := Lookup(store, name);
      issued := issued + [Get(name)];
    }

    /** `sysctl -wq name=value`; answers whether it exited with status 0. */
    method RunSet(name: string, value: string) returns (accepted: bool)
      modifies this
      ensures accepted == setCommand.accepts(name, value)
      ensures store == AfterSet(setCommand, old(store), name, value)
      ensures issued == old(issued) + [Set(name, value)]
    {
      accepted := setCommand.accepts(name, value);
      if accepted {
        store := store[name := setCommand.coerce(name, value)];
      }
      issued := issued + [Set(name, value)];
    }

    /** `sysctl_write`. */
    method Write(name: string, value: Value) returns (ok: bool)
      modifies this
      ensures var w := WriteOutcome(setCommand, old(store), name, value);
        ok == w.ok && store == w.store && issued == old(issued) + w.issued
    {
      var target := ValueString(value);
      var current := Read(name);
      if current == target {
        return true;
      }
      var accepted := RunSet(name, target);
      if !accepted {
        return false;
      }
      current := Read(name);
      if current == target {
        return true;
      }
      return false;
    }

    /** `sysctl_apply`. */
    method Apply(batch: Batch, revert: bool) returns (ok: bool)
      requires DistinctKeys(batch)
      modifies this
      ensures var a := ApplyOutcome(setCommand, old(store), batch, revert);
        ok == a.ok && store == a.store && issued == old(issued) + a.issued
      decreases if revert then 1 else 0
    {
      var original: Batch := [];
      var i := 0;
      while i < |batch|
        invariant 0 <= i <= |batch|
        invariant store == old(store)
        invariant original == Snapshot(old(store), batch[..i])
        invariant issued == old(issued) + Reads(batch[..i])
      {
        var current := Read(batch[i].0);
        assert batch[..i + 1][..i] == batch[..i];
        original := original + [(batch[i].0, Str(current))];
        i := i + 1;
      }
      assert batch[..|batch|] == batch;
      ghost var before := issued;
      assert before == old(issued) + Reads(batch);
      ghost var fwd := Outcome(true, store, []);
      i := 0;
      while i < |batch|
        invariant 0 <= i <= |batch|
        invariant fwd == ForwardOutcome(setCommand, old(store), batch[..i])
        invariant fwd.ok && store == fwd.store && issued == before + fwd.issued
      {
        ghost var w := WriteOutcome(setCommand, store, batch[i].0, batch[i].1);
        ok := Write(batch[i].0, batch[i].1);
        ForwardStep(setCommand, old(store), batch, i);
        SeqAssoc(before, fwd.issued, w.issued);
        fwd := Outcome(ok, store, fwd.issued + w.issued);
        if !ok {
          assert original == Snapshot(old(store), batch);
          ghost var failed := issued;
          assert failed == old(issued) + Reads(batch) + fwd.issued;
          ghost var rollback := ApplyOutcome(setCommand, store, original, false);
          ApplyAfterFailure(setCommand, old(store), batch, i, revert);
          if revert {
            var ignored := Apply(original, false);
            assert store == rollback.store && issued == failed + rollback.issued;
            SeqAssoc(old(issued) + Reads(batch), fwd.issued, rollback.issued);
            SeqAssoc(old(issued), Reads(batch), fwd.issued + rollback.issued);
            SeqAssoc(Reads(batch), fwd.issued, rollback.issued);
          } else {
            SeqAssoc(old(issued), Reads(batch), fwd.issued);
          }
          return false;
        }
        i := i + 1;
      }
      assert batch[..i] == batch;
      SeqAssoc(old(issued), Reads(batch), fwd.issued);
      ghost var a := ApplyOutcome(setCommand, old(store), batch, revert);
      assert a == Outcome(true, store, Reads(batch) + fwd.issued);
      assert issued == old(issued) + a.issued;
      return true;
    }
  }
}
