/**
  The audit ledger: a hash chain of record roots, appended to one entry at a time.
 */
module Audit {
  import opened Prelude
  import opened Encoding

  datatype AuditError = KindInvalid | SequenceInvalid | RecordRootMissing | OccurredAtMissing | EntryNotCanonical | LedgerConflict

  datatype Entry = Entry(sequence: U64, kind: Byte, previous: Root, record: Root, at: Time, root: Root)

  const CHAIN_DOMAIN := "cargoos:audit-chain:v1"

  predicate ValidKind(kind: Byte)
  {
    1 <= kind <= 4
  }

  /** What is hashed: the domain, the kind, the position, both roots and the time in microseconds. */
  function Preimage(e: Entry): Bytes
  {
    Utf8(CHAIN_DOMAIN) + [e.kind] + Scalar(e.sequence) + e.previous + e.record + Scalar(Micros(e.at))
  }

  function NewEntry(H: Bytes -> Root, sequence: U64, kind: Byte, previous: Root, record: Root, at: Time): Result<Entry, AuditError>
  {
    if !ValidKind(kind) then Err(KindInvalid)
    else if sequence == 0 || (sequence == 1) != (previous == ZERO_ROOT) then Err(SequenceInvalid)
    else if record == ZERO_ROOT then Err(RecordRootMissing)
    else if at == 0 then Err(OccurredAtMissing)
    else
      var e := Entry(sequence, kind, previous, record, Truncated(at), ZERO_ROOT);
      Ok(e.(root := H(Preimage(e))))
  }

  function Validate(H: Bytes -> Root, e: Entry): Option<AuditError>
  {
    match NewEntry(H, e.sequence, e.kind, e.previous, e.record, e.at)
    case Err(err) => Some(err)
    case Ok(normalized) => if normalized != e then Some(EntryNotCanonical) else None
  }

  lemma DomainBytes()
    ensures |Utf8(CHAIN_DOMAIN)| == 22
    ensures Utf8(CHAIN_DOMAIN)[8] == 97
  {
    AsciiBytes(CHAIN_DOMAIN, 8);
  }

  /** ASCII text is one byte per character. */
  lemma {:induction false} AsciiBytes(s: string, k: nat)
    requires k < |s| && forall i :: 0 <= i < |s| ==> s[i] < '\U{80}'
    ensures |Utf8(s)| == |s| && Utf8(s)[k] == s[k] as int
  {
    if |s| > 1 {
      AsciiBytes(s[1..], if k == 0 then 0 else k - 1);
    } else {
      assert s[1..] == "";
    }
  }

  /** Fills the fixed buffer field by field, as the preimage is laid out, and hashes it. */
  method CalculateRoot(H: Bytes -> Root, e: Entry) returns (root: Root)
    ensures root == H(Preimage(e))
  {
    hide Utf8, Scalar, Micros;
    DomainBytes();
    var buffer := new Byte[22 + 1 + 8 + 32 + 32 + 8];
    Copy(buffer, 0, Utf8(CHAIN_DOMAIN));
    assert buffer[..22] == Utf8(CHAIN_DOMAIN);
    buffer[22] := e.kind;
    assert buffer[..23] == Utf8(CHAIN_DOMAIN) + [e.kind];
    PutUint64(buffer, 23, e.sequence);
    Copy(buffer, 31, e.previous);
    Copy(buffer, 63, e.record);
    PutUint64(buffer, 95, Micros(e.at));
    assert buffer[..103] == buffer[..];
    root := H(buffer[..]);
  }

  method Copy(buffer: array<Byte>, offset: nat, bytes: Bytes)
    requires offset + |bytes| <= buffer.Length
    modifies buffer
    ensures buffer[..offset + |bytes|] == old(buffer[..offset]) + bytes
    ensures buffer[offset + |bytes|..] == old(buffer[offset + |bytes|..])
  {
    for k := 0 to |bytes|
      invariant buffer[offset..offset + k] == bytes[..k]
      invariant forall i :: 0 <= i < buffer.Length && !(offset <= i < offset + |bytes|) ==> buffer[i] == old(buffer[i])
    {
      buffer[offset + k] := bytes[k];
    }
    assert bytes[..|bytes|] == bytes;
    assert buffer[..offset + |bytes|] == buffer[..offset] + buffer[offset..offset + |bytes|];
  }

  /** Equal preimages are preimages of the same facts. */
  lemma PreimageIsInjective(a: Entry, b: Entry)
    requires Preimage(a) == Preimage(b)
    ensures a.kind == b.kind && a.sequence == b.sequence && a.previous == b.previous && a.record == b.record && Micros(a.at) == Micros(b.at)
  {
    hide Utf8, Micros;
    var d := Utf8(CHAIN_DOMAIN);
    var a5, b5 := Scalar(Micros(a.at)), Scalar(Micros(b.at));
    var a4, b4 := a.record + a5, b.record + b5;
    var a3, b3 := a.previous + a4, b.previous + b4;
    var a2, b2 := Scalar(a.sequence) + a3, Scalar(b.sequence) + b3;
    assert Preimage(a) == d + ([a.kind] + a2) && Preimage(b) == d + ([b.kind] + b2);
    SplitAt(d, [a.kind] + a2, d, [b.kind] + b2);
    SplitAt([a.kind], a2, [b.kind], b2);
    ScalarIsPrefixFree(a.sequence, a3, b.sequence, b3);
    SplitAt(a.previous, a4, b.previous, b4);
    SplitAt(a.record, a5, b.record, b5);
    ScalarIsInjective(Micros(a.at), Micros(b.at));
  }

  // The ledger -----------------------------------------------------------------------------------

  const MAX_SEQUENCE: nat := 0x7FFF_FFFF_FFFF_FFFF

  /** A guarded append, under the table lock: the entry must be canonical and follow the head. */
  function Append(H: Bytes -> Root, ledger: seq<Entry>, e: Entry): (seq<Entry>, Option<AuditError>)
  {
    if Validate(H, e).Some? || e.sequence > MAX_SEQUENCE then (ledger, Some(EntryNotCanonical))
    else if ledger == [] then
      if e.sequence != 1 || e.previous != ZERO_ROOT then (ledger, Some(LedgerConflict)) else (ledger + [e], None)
    else
      var head := ledger[|ledger| - 1];
      if e.sequence as nat != head.sequence + 1 || e.previous != head.root then (ledger, Some(LedgerConflict)) else (ledger + [e], None)
  }

  /** The entry for a new record, made from the head inside the same transaction. */
  function Following(H: Bytes -> Root, ledger: seq<Entry>, kind: Byte, record: Root, at: Time): Result<Entry, AuditError>
  {
    if ledger == [] then NewEntry(H, 1, kind, ZERO_ROOT, record, at)
    else
      var head := ledger[|ledger| - 1];
      if head.sequence >= MAX_SEQUENCE then Err(SequenceInvalid)
      else NewEntry(H, head.sequence + 1, kind, head.root, record, at)
  }

  function Record(H: Bytes -> Root, ledger: seq<Entry>, kind: Byte, record: Root, at: Time): (seq<Entry>, Option<AuditError>)
  {
    match Following(H, ledger, kind, record, at)
    case Err(e) => (ledger, Some(e))
    case Ok(e) => (ledger + [e], None)
  }

  datatype Op = OpAppend(e: Entry) | OpRecord(kind: Byte, record: Root, at: Time)

  function Step(H: Bytes -> Root, ledger: seq<Entry>, op: Op): (seq<Entry>, Option<AuditError>)
  {
    match op
    case OpAppend(e) => Append(H, ledger, e)
    case OpRecord(kind, record, at) => Record(H, ledger, kind, record, at)
  }

  function Run(H: Bytes -> Root, ops: seq<Op>): seq<Entry>
  {
    if ops == [] then [] else Step(H, Run(H, ops[..|ops| - 1]), ops[|ops| - 1]).0
  }

  function PreviousRoot(ledger: seq<Entry>, i: nat): Root
    requires i <= |ledger|
  {
    if i == 0 then ZERO_ROOT else ledger[i - 1].root
  }

  /** The entry is canonical, numbered by its place, and names the root before it. */
  ghost predicate Placed(H: Bytes -> Root, ledger: seq<Entry>, i: nat)
    requires i < |ledger|
  {
    && Validate(H, ledger[i]) == None && ledger[i].sequence == i + 1 && i + 1 <= MAX_SEQUENCE
    && ledger[i].previous == PreviousRoot(ledger, i)
  }

  ghost predicate Chained(H: Bytes -> Root, ledger: seq<Entry>)
  {
    forall i :: 0 <= i < |ledger| ==> Placed(H, ledger, i)
  }

  /** A new entry is canonical unless its time is truncated to the zero time, which passes for a missing one. */
  lemma NewEntryIsCanonical(H: Bytes -> Root, sequence: U64, kind: Byte, previous: Root, record: Root, at: Time)
    requires NewEntry(H, sequence, kind, previous, record, at).Ok?
    ensures Validate(H, NewEntry(H, sequence, kind, previous, record, at).value) == None <==> Truncated(at) != 0
  {
    hide Utf8, Micros, Preimage, Truncated;
    TruncatedOnce(at);
    var e := NewEntry(H, sequence, kind, previous, record, at).value;
    assert e.(root := ZERO_ROOT) == Entry(sequence, kind, previous, record, Truncated(at), ZERO_ROOT);
  }

  /** The record's own time survives truncation: it is not within the first microsecond of the zero time. */
  predicate Dated(op: Op)
  {
    op.OpRecord? ==> Truncated(op.at) != 0
  }

  lemma Extended(H: Bytes -> Root, ledger: seq<Entry>, e: Entry)
    requires Chained(H, ledger) && Validate(H, e) == None && |ledger| < MAX_SEQUENCE
    requires e.sequence == |ledger| + 1 && e.previous == PreviousRoot(ledger, |ledger|)
    ensures Chained(H, ledger + [e])
  {
    hide Validate;
    var next := ledger + [e];
    forall i | 0 <= i < |next| ensures Placed(H, next, i) {
      if i < |ledger| {
        PlacedEither(H, ledger, [e], i);
      }
    }
  }

  /** What follows an entry does not matter to it. */
  lemma PlacedEither(H: Bytes -> Root, ledger: seq<Entry>, more: seq<Entry>, i: nat)
    requires i < |ledger|
    ensures Placed(H, ledger, i) <==> Placed(H, ledger + more, i)
  {
    hide Validate;
    var whole := ledger + more;
    assert whole[i] == ledger[i] && (i > 0 ==> whole[i - 1] == ledger[i - 1]);
  }

  lemma HeadSequence(H: Bytes -> Root, ledger: seq<Entry>)
    requires Chained(H, ledger)
    ensures ledger != [] ==> ledger[|ledger| - 1].sequence == |ledger| <= MAX_SEQUENCE
  {
    hide Validate;
    if ledger != [] {
      assert Placed(H, ledger, |ledger| - 1);
    }
  }

  lemma StepKeepsChain(H: Bytes -> Root, ledger: seq<Entry>, op: Op)
    requires Chained(H, ledger) && (Step(H, ledger, op).1.None? ==> Dated(op))
    ensures Chained(H, Step(H, ledger, op).0)
  {
    hide Chained, Validate, Preimage, Truncated;
    HeadSequence(H, ledger);
    if Step(H, ledger, op).1.None? {
      var sequence, previous := |ledger| + 1, PreviousRoot(ledger, |ledger|);
      if op.OpRecord? {
        NewEntryIsCanonical(H, sequence, op.kind, previous, op.record, op.at);
        Extended(H, ledger, NewEntry(H, sequence, op.kind, previous, op.record, op.at).value);
      } else {
        Extended(H, ledger, op.e);
      }
    }
  }

  lemma StepExtends(H: Bytes -> Root, ledger: seq<Entry>, op: Op)
    ensures ledger <= Step(H, ledger, op).0
    ensures Step(H, ledger, op).1.Some? ==> Step(H, ledger, op).0 == ledger
    ensures Step(H, ledger, op).1.None? ==> |Step(H, ledger, op).0| == |ledger| + 1
  {
    hide Validate, NewEntry;
  }

  /** Whatever is appended or recorded, in any order, the ledger is only ever extended. */
  lemma {:induction false} RunOnlyExtends(H: Bytes -> Root, ops: seq<Op>, more: seq<Op>)
    ensures Run(H, ops) <= Run(H, ops + more)
  {
    hide Step;
    if more == [] {
      assert ops + more == ops;
    } else {
      var n := |more| - 1;
      assert (ops + more)[..|ops| + n] == ops + more[..n];
      RunOnlyExtends(H, ops, more[..n]);
      StepExtends(H, Run(H, ops + more[..n]), more[n]);
    }
  }

  /** The `i`th operation records something whose time is truncated to the zero time. */
  ghost predicate Undated(H: Bytes -> Root, ops: seq<Op>, i: nat)
    requires i < |ops|
  {
    !Dated(ops[i]) && Step(H, Run(H, ops[..i]), ops[i]).1.None?
  }

  lemma UndatedPrefix(H: Bytes -> Root, ops: seq<Op>, n: nat, i: nat)
    requires i < n <= |ops|
    ensures Undated(H, ops[..n], i) <==> Undated(H, ops, i)
  {
    hide Run, Step, Dated;
    assert ops[..n][..i] == ops[..i];
  }

  lemma ChainedPrefix(H: Bytes -> Root, ledger: seq<Entry>, more: seq<Entry>)
    requires Chained(H, ledger + more)
    ensures Chained(H, ledger)
  {
    hide Placed;
    forall i | 0 <= i < |ledger| ensures Placed(H, ledger, i) {
      PlacedEither(H, ledger, more, i);
    }
  }

  lemma UndatedBreaks(H: Bytes -> Root, ledger: seq<Entry>, op: Op)
    requires !Dated(op) && Step(H, ledger, op).1.None?
    ensures !Chained(H, Step(H, ledger, op).0)
  {
    hide Validate, Preimage, Truncated;
    var sequence: U64 := if ledger == [] then 1 else ledger[|ledger| - 1].sequence + 1;
    var previous := if ledger == [] then ZERO_ROOT else ledger[|ledger| - 1].root;
    NewEntryIsCanonical(H, sequence, op.kind, previous, op.record, op.at);
    var next := Step(H, ledger, op).0;
    assert next[|ledger|] == NewEntry(H, sequence, op.kind, previous, op.record, op.at).value;
    assert !Placed(H, next, |ledger|);
  }

  lemma StepChainedExactly(H: Bytes -> Root, ledger: seq<Entry>, op: Op)
    ensures Chained(H, Step(H, ledger, op).0) <==> Chained(H, ledger) && (Dated(op) || Step(H, ledger, op).1.Some?)
  {
    hide Chained, Step, Dated;
    StepExtends(H, ledger, op);
    var next := Step(H, ledger, op).0;
    if Chained(H, next) {
      assert next == ledger + next[|ledger|..];
      ChainedPrefix(H, ledger, next[|ledger|..]);
    }
    if !Dated(op) && Step(H, ledger, op).1.None? {
      UndatedBreaks(H, ledger, op);
    } else if Chained(H, ledger) {
      StepKeepsChain(H, ledger, op);
    }
  }

  /** Over any operations whatever the ledger is one unbroken chain of canonical entries exactly if none of them
      recorded something dated within the first microsecond of the zero time. */
  lemma {:induction false} RunIsChainedExactly(H: Bytes -> Root, ops: seq<Op>)
    ensures Chained(H, Run(H, ops)) <==> forall i :: 0 <= i < |ops| ==> !Undated(H, ops, i)
  {
    hide Chained, Step, Dated, Undated;
    if ops == [] {
      EmptyIsChained(H);
    } else {
      var n := |ops| - 1;
      RunIsChainedExactly(H, ops[..n]);
      StepChainedExactly(H, Run(H, ops[..n]), ops[n]);
      forall i | 0 <= i < n ensures Undated(H, ops[..n], i) <==> Undated(H, ops, i) {
        UndatedPrefix(H, ops, n, i);
      }
      LastUndated(H, ops);
    }
  }

  lemma LastUndated(H: Bytes -> Root, ops: seq<Op>)
    requires ops != []
    ensures var n := |ops| - 1; Undated(H, ops, n) <==> !Dated(ops[n]) && Step(H, Run(H, ops[..n]), ops[n]).1.None?
  {
  }

  /** Recording anything at one nanosecond after the zero time is accepted, and the entry is not canonical. */
  lemma FirstMicrosecondBreaks(H: Bytes -> Root, record: Root)
    requires record != ZERO_ROOT
    ensures |Run(H, [OpRecord(1, record, 1)])| == 1 && Validate(H, Run(H, [OpRecord(1, record, 1)])[0]) == Some(OccurredAtMissing)
  {
    hide Preimage;
    var ops := [OpRecord(1, record, 1)];
    assert ops[..0] == [];
    assert Truncated(1) == 0;
  }

  lemma EmptyIsChained(H: Bytes -> Root)
    ensures Chained(H, [])
  {
  }

  /** An entry is made exactly of a known kind, in its place, with a record and a time, and holds just those, to the
      microsecond, under the root of all of them. */
  lemma MadeExactly(H: Bytes -> Root, sequence: U64, kind: Byte, previous: Root, record: Root, at: Time)
    ensures var r := NewEntry(H, sequence, kind, previous, record, at);
      && (r.Ok? <==>
            1 <= kind <= 4 && sequence > 0 && (sequence == 1 <==> previous == ZERO_ROOT) && record != ZERO_ROOT && at != 0)
      && (r.Ok? ==>
            var e := Entry(sequence, kind, previous, record, at - at % 1000, ZERO_ROOT); r.value == e.(root := H(Preimage(e))))
  {
    hide Preimage;
  }

  /** An entry is appended exactly if it is canonical and follows the head, by number and root; the first one starts from
      the zero root. */
  lemma AppendsExactly(H: Bytes -> Root, ledger: seq<Entry>, e: Entry)
    ensures var (next, err) := Append(H, ledger, e); var n := |ledger|;
      && (err.None? <==>
            && Validate(H, e) == None && e.sequence <= MAX_SEQUENCE
            && (if n == 0 then e.sequence == 1 && e.previous == ZERO_ROOT
                else e.sequence as nat == ledger[n - 1].sequence + 1 && e.previous == ledger[n - 1].root))
      && next == (if err.None? then ledger + [e] else ledger)
  {
    hide Validate;
  }

  /** A record can be added exactly when it is well formed, there is room, and the head root is not the zero
      root, which would pass for the start of a chain. */
  lemma RecordingExactly(H: Bytes -> Root, ledger: seq<Entry>, kind: Byte, record: Root, at: Time)
    requires Chained(H, ledger)
    ensures Record(H, ledger, kind, record, at).1.None? <==>
      && ValidKind(kind) && record != ZERO_ROOT && at != 0 && |ledger| < MAX_SEQUENCE
      && (ledger != [] ==> ledger[|ledger| - 1].root != ZERO_ROOT)
  {
    hide Preimage, Truncated;
    HeadSequence(H, ledger);
  }

  // Tamper evidence ----------------------------------------------------------------------------------

  ghost function Preimages(ledger: seq<Entry>): set<Bytes>
  {
    set e | e in ledger :: Preimage(e)
  }

  ghost predicate AllRepresentable(ledger: seq<Entry>)
  {
    forall i :: 0 <= i < |ledger| ==> Representable(ledger[i].at)
  }

  lemma RootIsHash(H: Bytes -> Root, ledger: seq<Entry>, i: nat)
    requires Chained(H, ledger) && i < |ledger|
    ensures ledger[i].root == H(Preimage(ledger[i])) && Truncated(ledger[i].at) == ledger[i].at
    ensures Preimage(ledger[i]) in Preimages(ledger) && ledger[i].sequence == i + 1
  {
    hide Utf8, Micros;
    var e := ledger[i];
    assert Placed(H, ledger, i);
    assert Preimage(Entry(e.sequence, e.kind, e.previous, e.record, Truncated(e.at), ZERO_ROOT)) == Preimage(e);
    assert e in ledger;
  }

  lemma EqualRootsEqualEntries(H: Bytes -> Root, a: seq<Entry>, b: seq<Entry>, i: nat, j: nat)
    requires Chained(H, a) && Chained(H, b) && AllRepresentable(a) && AllRepresentable(b)
    requires CollisionFreeOn(H, Preimages(a) + Preimages(b))
    requires i < |a| && j < |b| && a[i].root == b[j].root
    ensures i == j && a[i] == b[j]
  {
    hide Preimage, Preimages, Truncated, Micros, Validate, Representable;
    RootIsHash(H, a, i);
    RootIsHash(H, b, j);
    PreimageIsInjective(a[i], b[j]);
    MicrosTellInstants(a[i].at, b[j].at);
  }

  lemma NamesThePrevious(H: Bytes -> Root, ledger: seq<Entry>, i: nat)
    requires Chained(H, ledger) && 0 < i < |ledger|
    ensures ledger[i].previous == ledger[i - 1].root
  {
    hide Validate;
    assert Placed(H, ledger, i);
  }

  /** One root anywhere fixes everything before it: two chains that share a root, wherever it occurs, are one
      chain up to there. In particular equal heads mean equal ledgers, and no chain forks and rejoins. */
  lemma {:induction false} EqualRootsEqualHistories(H: Bytes -> Root, a: seq<Entry>, b: seq<Entry>, i: nat, j: nat)
    requires Chained(H, a) && Chained(H, b) && AllRepresentable(a) && AllRepresentable(b)
    requires CollisionFreeOn(H, Preimages(a) + Preimages(b))
    requires i < |a| && j < |b| && a[i].root == b[j].root
    ensures i == j && a[..i + 1] == b[..j + 1]
  {
    hide Chained, Preimages, AllRepresentable;
    EqualRootsEqualEntries(H, a, b, i, j);
    if i > 0 {
      NamesThePrevious(H, a, i);
      NamesThePrevious(H, b, j);
      EqualRootsEqualHistories(H, a, b, i - 1, j - 1);
      assert a[..i + 1] == a[..i] + [a[i]] && b[..j + 1] == b[..j] + [b[j]];
    }
  }

  lemma EqualHeadsEqualLedgers(H: Bytes -> Root, a: seq<Entry>, b: seq<Entry>)
    requires Chained(H, a) && Chained(H, b) && AllRepresentable(a) && AllRepresentable(b)
    requires CollisionFreeOn(H, Preimages(a) + Preimages(b))
    requires a != [] && b != [] && a[|a| - 1].root == b[|b| - 1].root
    ensures a == b
  {
    hide Chained, AllRepresentable, Preimages;
    EqualRootsEqualHistories(H, a, b, |a| - 1, |b| - 1);
    assert a[..|a|] == a && b[..|b|] == b;
  }

  class Ledger {
    var entries: seq<Entry>

    constructor ()
      ensures entries == []
    {
      entries := [];
    }

    method AppendAuditEntry(H: Bytes -> Root, e: Entry) returns (err: Option<AuditError>)
      modifies this
      ensures (entries, err) == Append(H, old(entries), e)
      ensures old(Chained(H, entries)) ==> Chained(H, entries)
    {
      hide Preimage, Micros, Truncated, NewEntry;
      ghost var before := entries;
      if Chained(H, before) { StepKeepsChain(H, before, OpAppend(e)); }
      var invalid := Validate(H, e);
      if invalid.Some? || e.sequence > MAX_SEQUENCE {
        return Some(EntryNotCanonical);
      }
      if entries == [] {
        if e.sequence != 1 || e.previous != ZERO_ROOT {
          return Some(LedgerConflict);
        }
      } else {
        var head := entries[|entries| - 1];
        if e.sequence as nat != head.sequence + 1 || e.previous != head.root {
          return Some(LedgerConflict);
        }
      }
      entries := entries + [e];
      return None;
    }
  }
}
