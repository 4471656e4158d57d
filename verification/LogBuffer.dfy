/**
 Log records and the ring buffer of packages/shared/src/logger.js.

 The buffer is circular storage of fixed size. Its abstract value is the sequence of
 all records since the last clear; reading it back gives the last hundred of them.
 */
module LogBuffer {
  import opened Redaction
  import opened RedactedCopies

  const LOG_BUFFER_SIZE: nat := 100

  datatype Slot = Empty | Entry(entry: Tree)

  // ----- Records

  /** `{ ...fields, [key]: value }`: an existing key keeps its place. */
  function SetField(fields: Fields, key: string, value: Tree): Fields {
    match fields
    case NoFields => Field(key, value, NoFields)
    case Field(k, v, rest) => if k == key then Field(k, value, rest) else Field(k, v, SetField(rest, key, value))
  }

  function Spread(base: Fields, extra: Fields): Fields
    decreases extra
  {
    match extra
    case NoFields => base
    case Field(key, value, rest) => Spread(SetField(base, key, value), rest)
  }

  function BaseFields(level: string, message: string, timestamp: string): Fields {
    Field("level", Leaf(Text(level)),
    Field("source", Leaf(Text("frontend")),
    Field("timestamp", Leaf(Text(timestamp)),
    Field("message", Leaf(Text(message)), NoFields))))
  }

  /** The record for a redacted context; a context that is not an object adds no fields. */
  function BuildRecord(level: string, message: string, timestamp: string, context: Tree): Tree {
    var base := BaseFields(level, message, timestamp);
    Branch(if context.Branch? then Spread(base, context.fields) else base)
  }

  lemma {:induction false} SetFieldRedacted(fields: Fields, key: string, value: Tree, functions: set<nat>)
    requires RedactedFields(fields, functions) && RedactedProperty(key, value, functions)
    ensures RedactedFields(SetField(fields, key, value), functions)
  {
    if fields.Field? && fields.key != key {
      SetFieldRedacted(fields.rest, key, value, functions);
    }
  }

  lemma {:induction false} SpreadRedacted(base: Fields, extra: Fields, functions: set<nat>)
    requires RedactedFields(base, functions) && RedactedFields(extra, functions)
    ensures RedactedFields(Spread(base, extra), functions)
    decreases extra
  {
    match extra
    case NoFields =>
    case Field(key, value, rest) =>
      SetFieldRedacted(base, key, value, functions);
      SpreadRedacted(SetField(base, key, value), rest, functions);
  }

  lemma RecordKeysNotListed()
    ensures !Listed("level") && !Listed("source") && !Listed("timestamp") && !Listed("message")
  {
    assert ToLowerCase("level") == "level";
    assert ToLowerCase("source") == "source";
    assert ToLowerCase("timestamp") == "timestamp";
    assert ToLowerCase("message") == "message";
  }

  lemma RecordIsRedacted(level: string, message: string, timestamp: string, h: Heap, context: Value, rank: nat -> nat)
    requires Graph(h, rank) && InHeap(h, context)
    ensures Redacted(BuildRecord(level, message, timestamp, Redact(h, context, {}, rank).0), FunctionsOf(h))
  {
    var t := Redact(h, context, {}, rank).0;
    CopyIsRedacted(h, context, {}, rank);
    BaseIsRedacted(level, message, timestamp, FunctionsOf(h));
    if t.Branch? {
      SpreadRedacted(BaseFields(level, message, timestamp), t.fields, FunctionsOf(h));
    }
  }

  /** The entry, laid out in the heap from `lo` on, is a fixpoint of `redact`. */
  ghost predicate FixedInHeap(h: Heap, rank: nat -> nat, entry: Tree, lo: nat) {
    var (beside, beyond) := (Beside(h, entry, lo), RankBeside(rank, lo, lo + Size(entry)));
    Graph(beside, beyond) && InHeap(beside, At(entry, lo)) && Redact(beside, At(entry, lo), {}, beyond).0 == entry
  }

  /** Every record the logger builds, whatever the context was, is such a fixpoint. */
  lemma RecordIsFixed(level: string, message: string, timestamp: string, h: Heap, context: Value, rank: nat -> nat, lo: nat)
    requires Graph(h, rank) && InHeap(h, context) && forall r :: r in h ==> r < lo
    ensures FixedInHeap(h, rank, BuildRecord(level, message, timestamp, Redact(h, context, {}, rank).0), lo)
  {
    hide *;
    RecordIsRedacted(level, message, timestamp, h, context, rank);
    RedactedIsFixedInHeap(h, rank, BuildRecord(level, message, timestamp, Redact(h, context, {}, rank).0), lo);
  }

  lemma RedactedIsFixedInHeap(h: Heap, rank: nat -> nat, entry: Tree, lo: nat)
    requires Graph(h, rank) && Redacted(entry, FunctionsOf(h)) && forall r :: r in h ==> r < lo
    ensures FixedInHeap(h, rank, entry, lo)
  {
    RedactedStaysInHeap(h, rank, entry, lo);
  }

  lemma BaseIsRedacted(level: string, message: string, timestamp: string, functions: set<nat>)
    ensures RedactedFields(BaseFields(level, message, timestamp), functions)
  {
    RecordKeysNotListed();
    hide Listed;
    TextFieldRedacted("message", message, NoFields, functions);
    var last := Field("message", Leaf(Text(message)), NoFields);
    TextFieldRedacted("timestamp", timestamp, last, functions);
    var third := Field("timestamp", Leaf(Text(timestamp)), last);
    TextFieldRedacted("source", "frontend", third, functions);
    TextFieldRedacted("level", level, Field("source", Leaf(Text("frontend")), third), functions);
  }

  lemma TextFieldRedacted(key: string, text: string, rest: Fields, functions: set<nat>)
    requires !Listed(key) && RedactedFields(rest, functions)
    ensures RedactedFields(Field(key, Leaf(Text(text)), rest), functions)
  {
    hide Listed;
    assert RedactedProperty(key, Leaf(Text(text)), functions);
  }

  // ----- What a reader of the log sees

  /** The last `n` records, or all of them if there are fewer. */
  function LastRecords(records: seq<Tree>, n: nat): seq<Tree> {
    if |records| <= n then records else records[|records| - n..]
  }

  /** `redact(record)`, with a new set of visited objects. */
  method CopyOf(entry: Tree, h: Heap, lo: nat, ghost rank: nat -> nat, ghost functions: set<nat>) returns (copy: Tree)
    requires Graph(h, rank) && Redacted(entry, functions) && functions <= FunctionsOf(h) && forall r :: r in h ==> r < lo
    ensures copy == entry
  {
    RedactedGrows(entry, functions, FunctionsOf(h));
    RedactedStaysInHeap(h, rank, entry, lo);
    var seen := new WeakSet();
    copy := RedactInPlace(Beside(h, entry, lo), At(entry, lo), seen, RankBeside(rank, lo, lo + Size(entry)));
  }

  // ----- The buffer

  class RingBuffer {
    ghost var history: seq<Tree>  // every record since the last clear
    ghost var functions: set<nat>  // the functions that records may refer to
    var buffer: array<Slot>
    var head: nat
    var size: nat

    ghost predicate Valid()
      reads this, buffer
    {
      && buffer.Length == LOG_BUFFER_SIZE
      && size == (if |history| < LOG_BUFFER_SIZE then |history| else LOG_BUFFER_SIZE)
      && head == |history| % LOG_BUFFER_SIZE
      && (forall k :: |history| - size <= k < |history| ==> buffer[k % LOG_BUFFER_SIZE] == Entry(history[k]))
      && (forall k :: 0 <= k < |history| ==> Redacted(history[k], functions))
    }

    constructor ()
      ensures Valid() && history == [] && fresh(buffer)
    {
      buffer := new Slot[LOG_BUFFER_SIZE](_ => Empty);
      head, size := 0, 0;
      history, functions := [], {};
    }

    method PushToBuffer(entry: Tree)
      requires Valid() && Redacted(entry, functions)
      modifies this, buffer
      ensures Valid() && history == old(history) + [entry] && buffer == old(buffer) && functions == old(functions)
    {
      buffer[head] := Entry(entry);
      head := (head + 1) % LOG_BUFFER_SIZE;
      if size < LOG_BUFFER_SIZE {
        size := size + 1;
      }
      history := history + [entry];
      Slots(old(|history|));
    }

    /** `record(level, message, context)`: build, store, return. */
    method Record(level: string, message: string, timestamp: string, h: Heap, context: Value, seen: WeakSet, ghost rank: nat -> nat)
      returns (entry: Tree)
      requires Valid() && Graph(h, rank) && InHeap(h, context) && seen.members == {}
      modifies this, buffer, seen
      ensures Valid() && buffer == old(buffer) && history == old(history) + [entry]
      ensures functions == old(functions) + FunctionsOf(h)
      ensures entry == BuildRecord(level, message, timestamp, Redact(h, context, {}, rank).0)
    {
      var t := RedactInPlace(h, context, seen, rank);
      entry := BuildRecord(level, message, timestamp, t);
      RecordIsRedacted(level, message, timestamp, h, context, rank);
      Remember(FunctionsOf(h));
      RedactedGrows(entry, FunctionsOf(h), functions);
      PushToBuffer(entry);
    }

    ghost method Remember(more: set<nat>)
      requires Valid()
      modifies `functions
      ensures Valid() && functions == old(functions) + more
    {
      forall k | 0 <= k < |history|
        ensures Redacted(history[k], functions + more)
      {
        RedactedGrows(history[k], functions, functions + more);
      }
      functions := functions + more;
    }

    /**
     The copy step redacts each record again, as an object beside the heap of the caller, in
     which the functions that records refer to still are. The records come out as they were
     stored, oldest first.
     */
    method GetRecentLogs(h: Heap, lo: nat, ghost rank: nat -> nat) returns (entries: seq<Tree>)
      requires Valid() && Graph(h, rank) && functions <= FunctionsOf(h) && forall r :: r in h ==> r < lo
      ensures entries == LastRecords(history, 100)
    {
      hide Redacted, FunctionsOf, Graph;
      var start := if size < LOG_BUFFER_SIZE then 0 else head;
      entries := [];
      for i := 0 to size
        invariant entries == history[|history| - size..][..i]
      {
        ghost var k := |history| - size + i;
        SameSlot(|history|, size, head, i);
        var slot := buffer[(start + i) % LOG_BUFFER_SIZE];
        assert slot == Entry(history[k]);
        var copy := CopyOf(slot.entry, h, lo, rank, functions);
        entries := entries + [copy];
      }
    }

    method ClearLogs()
      requires Valid()
      modifies this, buffer
      ensures Valid() && history == [] && buffer == old(buffer)
    {
      forall i | 0 <= i < buffer.Length {
        buffer[i] := Empty;
      }
      head, size := 0, 0;
      history := [];
    }
  }

  /** Reading starts at the first slot, or at the oldest one when the buffer is full. */
  lemma SameSlot(records: nat, size: nat, head: nat, i: nat)
    requires size == (if records < LOG_BUFFER_SIZE then records else LOG_BUFFER_SIZE) && head == records % LOG_BUFFER_SIZE && i < size
    ensures ((if size < LOG_BUFFER_SIZE then 0 else head) + i) % LOG_BUFFER_SIZE == (records - size + i) % LOG_BUFFER_SIZE
  {
  }

  /** Two of the last hundred record numbers never share a slot. */
  lemma Slots(n: nat)
    ensures (n + 1) % LOG_BUFFER_SIZE == (n % LOG_BUFFER_SIZE + 1) % LOG_BUFFER_SIZE
    ensures forall k :: n - LOG_BUFFER_SIZE < k < n ==> k % LOG_BUFFER_SIZE != n % LOG_BUFFER_SIZE
  {
  }
}
