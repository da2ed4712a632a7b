# Sysctl gateway of `vyos.utils.system`, modelled in Dafny

VyOS changes kernel tunables through three helpers in
`python/vyos/utils/system.py`:

- `sysctl_read(name)` prints a tunable with `sysctl -nb name`.
- `sysctl_write(name, value)` is a verified write. It turns a non-string
  value into a string. It answers True without writing when the value is
  already in place. Otherwise it runs `sysctl -wq name=value` and answers
  False on a non-zero exit status. Finally it reads the key back and
  answers True only if the kernel now holds exactly the requested text.
- `sysctl_apply(dict, revert=True)` first reads every key of the dict
  (the snapshot). It then writes the items in insertion order and stops at
  the first failed write. When `revert` is set, it applies the snapshot
  with `revert=False`, ignores that answer, and answers False.

The model replaces the `sysctl` executable with an abstract kernel:

- a store `map<string, string>` from tunable to value;
- a `SetCommand` made of two functions. `accepts(name, value)` gives the
  exit status of the set command. `coerce(name, value)` gives the value
  the kernel then holds, which may differ from the requested one.

Files:

- `decimal.dfy` (module `Decimal`) models Python's `str` on ints, without
  the digit-count limit of recent Python versions (see "Left out"). It also
  defines the inverse `ParseInt`, and proves the two round trips.
- `system.dfy` (module `System`) has two parts.
  - Specification functions on values: `WriteOutcome`, `ForwardOutcome`
    (the write loop of `sysctl_apply`) and `ApplyOutcome`. Each gives the
    answer, the store afterwards, and the commands sent, in order.
  - The class `Kernel`. It owns the store and a ghost trace `issued` of
    every `sysctl` command sent. `Read`, `Write` and `Apply` follow the
    Python code statement by statement: early returns, the snapshot loop,
    the write loop with its short-circuit, and the nested rollback call.
    Each method is proved equal to its specification function.

`Kernel.Apply` calls itself for the rollback with `decreases if revert
then 1 else 0`, and so does `ApplyOutcome`. Dafny accepts the recursion
only because the nested call passes `revert = false`: rollback nests at
most one level deep.

A Python dict is modelled as the sequence of its items in insertion order.
Its keys are distinct, and `Apply` requires `DistinctKeys` as that type
invariant. A value is `Str(s)` or `Int(n)`, matching the `str | int` the
write accepts.

`sysctl_read` never looks at the exit status of `sysctl -nb`. For a key
the kernel does not have, it therefore returns the empty stdout, `""`.
The model follows the code (`Lookup` gives `""` for a missing key), not a
reading in which the read failure propagates. One consequence: writing
`""` to a missing key answers True and sends no set command (`WriteNoOp`).

## Model

| member | source | states |
|---|---|---|
| `Decimal.NatDigits` | python/vyos/utils/system.py:42-43 | `str` of a non-negative int is non-empty, all decimal digits, and starts with '0' only for 0 |
| `Decimal.IntToStringRoundTrip` | python/vyos/utils/system.py:42-43 | parsing `str(n)` gives back `n` for every int, negatives included |
| `Decimal.ParseIntRoundTrip` | python/vyos/utils/system.py:42-43 | every string the parser accepts is exactly what `str` writes for its value |
| `Decimal.IntToStringInjective` | python/vyos/utils/system.py:42-43 | distinct ints become distinct strings |
| `Decimal.IntToString` | python/vyos/utils/system.py:42-43 | `str(n)` is non-empty, starts with '-' exactly for negative n, and is digits after the sign; its round trips are `IntToStringRoundTrip` and `ParseIntRoundTrip` |
| `Decimal.NatDigitsValue` | python/vyos/utils/system.py:42-43 | the digits of `n` denote `n` |
| `Decimal.DigitsValueNatDigits` | python/vyos/utils/system.py:42-43 | a canonical digit string is the rendering of the number it denotes |
| `System.ValueString` | python/vyos/utils/system.py:41-43 | a str value is compared and sent unchanged, an int as its decimal text with its sign; `ValueStringInt` proves the round trip and injectivity |
| `System.Lookup` | python/vyos/utils/system.py:28-29 | what `sysctl_read` answers: the stored value, or "" for a key the kernel does not have; stated by `MissingKeyReadsEmpty` and used by every read in `Kernel.Read` |
| `System.MissingKeyReadsEmpty` | python/vyos/utils/system.py:28-29 | a missing key reads as "", so writing "" to it answers True after one read and no set command |
| `System.ValueStringInt` | python/vyos/utils/system.py:41-43 | an int is compared and sent as its decimal text (5 as "5"), which parses back to it; distinct ints give distinct texts |
| `System.Kernel.Read` | python/vyos/utils/system.py:19-29 | the read answers the stored value, or "" for a missing key; it changes no tunable and records one read command |
| `System.Kernel.RunSet` | python/vyos/utils/system.py:48 | the set command answers the kernel's exit status; when accepted the key holds the coerced value, otherwise nothing changes |
| `System.WriteOutcome` | python/vyos/utils/system.py:31-56 | `sysctl_write` answers True exactly when the key afterwards holds the converted requested value |
| `System.WriteNoOp` | python/vyos/utils/system.py:44-46 | a value already in place: True after one read, no set command, store unchanged |
| `System.WriteSends` | python/vyos/utils/system.py:45-48 | any other value: the read is followed by the set command carrying the converted value |
| `System.WriteRejected` | python/vyos/utils/system.py:47-49 | a non-zero exit status: False at once, store unchanged, no second read |
| `System.WriteCoerced` | python/vyos/utils/system.py:50-56 | a kernel that accepts but stores a different value: False, with the coerced value in place |
| `System.WriteFrame` | python/vyos/utils/system.py:45-53 | every command the write sends names the written key (the source's promise); that every other key keeps its value or stays absent is a property of the modelled kernel, whose set command changes only its own key |
| `System.Kernel.Write` | python/vyos/utils/system.py:31-56 | the method's answer, new store and commands sent are those of `WriteOutcome` |
| `System.Reads` | python/vyos/utils/system.py:71-72 | the snapshot issues one read per key, in insertion order |
| `System.Snapshot` | python/vyos/utils/system.py:70-72 | the snapshot pairs each key, in order, with the value it held before the call |
| `System.ApplyOutcome` | python/vyos/utils/system.py:58-80 | `sysctl_apply` answers True exactly when every forward write succeeded; all snapshot reads come before any write; without `revert` no rollback runs |
| `System.ForwardOutcome` | python/vyos/utils/system.py:74-78 | the write loop of `sysctl_apply`: items written in order, stopping at the first False; its properties are `ForwardStep`, `ForwardStopsAtFailure`, `ForwardFirstFailure`, `ForwardOkHoldsAll`, `ForwardFrame` and `ForwardAllInPlace` |
| `System.ForwardStopsAtFailure` | python/vyos/utils/system.py:74-78 | once a write fails, later items are never written: the pass ends exactly as on the failed prefix |
| `System.ForwardFirstFailure` | python/vyos/utils/system.py:74-78 | a failed pass has a first failing item; every earlier write succeeded and the outcome is that of the prefix ending there |
| `System.ForwardStep` | python/vyos/utils/system.py:74-75 | the pass over `i + 1` items is the pass over `i` followed, if it succeeded, by the write of item `i` |
| `System.ForwardOkHoldsAll` | python/vyos/utils/system.py:74-80 | after a successful pass over distinct keys, every key holds its requested value |
| `System.ApplyOkHoldsAll` | python/vyos/utils/system.py:79-80 | a True answer from `sysctl_apply` means every key of the dict holds its requested value, whatever `revert` is |
| `System.ApplyAfterFailure` | python/vyos/utils/system.py:75-78 | on a failed write, with `revert` the result is one nested no-revert apply of the snapshot on the failed store, answering False; without it, the failed pass itself |
| `System.RollbackRestores` | python/vyos/utils/system.py:75-78 | when the rollback succeeds, every key of the dict is back at its pre-call value, and the answer is still False |
| `System.ForwardFrame` | python/vyos/utils/system.py:74-75 | the forward pass reads and sets only keys of the dict; other keys keep their values |
| `System.ApplyFrame` | python/vyos/utils/system.py:69-78 | `sysctl_apply`, rollback included, reads and sets only keys of the dict; other keys keep their values |
| `System.ForwardAllInPlace` | python/vyos/utils/system.py:74-75 | a pass whose values are all in place sends only reads and changes nothing |
| `System.ApplyIdempotent` | python/vyos/utils/system.py:69-80 | applying a dict again after it succeeded sends no set command and changes nothing |
| `System.RefuseBForward` | python/vyos/utils/system.py:74-78 | with a kernel refusing B, the pass over {A: "1", B: "2"} writes A, then fails on B's set command |
| `System.RefuseBRollback` | python/vyos/utils/system.py:76-77 | the rollback of that example sets A back to "0" and only reads B |
| `System.RollbackExample` | python/vyos/utils/system.py:58-80 | that apply with `revert` answers False, leaves the original store, and sends the forward and then the rollback commands |
| `System.Kernel.Apply` | python/vyos/utils/system.py:58-80 | the method's answer, new store and commands sent are those of `ApplyOutcome` |

## Left out

- Process I/O: `subprocess.run`, building the argument lists and
  `stdout.decode()` (python/vyos/utils/system.py:28-29,48). They are
  replaced by the abstract store and the `SetCommand` functions.
- A failure to start `sysctl` at all (missing or not executable binary)
  would raise in Python. The model has no exceptions for it.
- Values other than `str` and `int` (for instance `bool` or `float`)
  also go through `str()` in the source; only ints are modelled.
- `Decimal.IntToString` and `System.Kernel.Write` succeed on every int.
  Python 3.11 (and patched 3.10 releases) raise `ValueError` from
  `str(n)` when `n` has more than 4300 digits; that exception is not
  modelled.
- The kernel model assumes three things the source does not promise.
  First, an accepted set command changes only its own key. Second, two
  different key strings are two different tunables. Third, the outcome of
  a set (`accepts`, `coerce`) depends only on the key and the value, not
  on the rest of the store. A real kernel can break the first two: writing
  `net.ipv4.conf.all.forwarding` also rewrites every interface's
  `forwarding`, and `net.ipv4.conf.eth0/100.forwarding` and
  `net/ipv4/conf/eth0.100/forwarding` name the same tunable. The store
  clauses of `WriteFrame`, `ForwardOkHoldsAll`, `ApplyOkHoldsAll`,
  `ApplyIdempotent`, `RollbackRestores` and `ApplyFrame` hold for the
  modelled kernel only; against such a kernel `sysctl_apply` can answer
  True while an earlier key has been overwritten by a later one.
- A set command that exits non-zero and still changes the value: the
  model assumes a rejected command leaves the store unchanged.
- `find_device_file` (python/vyos/utils/system.py:82-92): a directory walk
  of `/dev` with `fnmatch`, both outside this model.
- `load_as_module` and `load_as_module_source`
  (python/vyos/utils/system.py:94-112): dynamic code loading, with no
  behaviour to state.
- `get_uptime_seconds` and `get_load_averages`
  (python/vyos/utils/system.py:114-141): reads of `/proc`, regular
  expressions and floating-point division by a core count from another
  module.
- `get_secure_boot_state` (python/vyos/utils/system.py:143-149): an
  external `mokutil` call after a UEFI check from another module.
- Concurrent `sysctl_apply` callers: the code has no locking, and the
  model is strictly sequential.
