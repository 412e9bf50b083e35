// The client's copy of a report control block, with a flag for every field a setter has touched.
module DirtyFlags {
  import opened Wrappers

  datatype Field =
    | RptId | RptEna | Resv | DataSetReference | ConfRev | OptFlds | BufTm | SqNum
    | TrgOps | IntgPd | GI | PurgeBuf | EntryId | ResvTms

  // Field values of every type, in one printed form.
  type Value = string

  // No setter exists for the other three.
  predicate Settable(field: Field) {
    field != ConfRev && field != SqNum && field != ResvTms
  }

  // The field a bit of the parameter mask stands for; bit 13 and those above 14 stand for none.
  function FieldAt(bit: nat): Option<Field> {
    match bit
    case 0 => Some(RptId)
    case 1 => Some(RptEna)
    case 2 => Some(Resv)
    case 3 => Some(DataSetReference)
    case 4 => Some(ConfRev)
    case 5 => Some(OptFlds)
    case 6 => Some(BufTm)
    case 7 => Some(SqNum)
    case 8 => Some(TrgOps)
    case 9 => Some(IntgPd)
    case 10 => Some(GI)
    case 11 => Some(PurgeBuf)
    case 12 => Some(EntryId)
    case 14 => Some(ResvTms)
    case _ => None
  }

  predicate HasBit(mask: nat, bit: nat) {
    if bit == 0 then mask % 2 == 1 else HasBit(mask / 2, bit - 1)
  }

  // The bits of the mask, the lowest first.
  function Bits(flags: set<Field>): (bits: seq<bool>)
    ensures |bits| == 15
    ensures forall bit: nat :: bit < 15 ==> (bits[bit] <==> FieldAt(bit).Some? && FieldAt(bit).value in flags)
  {
    seq(15, bit requires 0 <= bit < 15 => FieldAt(bit).Some? && FieldAt(bit).value in flags)
  }

  function Number(bits: seq<bool>): nat {
    if bits == [] then 0 else (if bits[0] then 1 else 0) + 2 * Number(bits[1..])
  }

  function MaskOf(flags: set<Field>): nat {
    Number(Bits(flags))
  }

  lemma {:induction false} NumberBits(bits: seq<bool>, bit: nat)
    ensures HasBit(Number(bits), bit) <==> bit < |bits| && bits[bit]
    decreases bit
  {
    if bits == [] {
      NoBits(bit);
    } else if bit > 0 {
      NumberBits(bits[1..], bit - 1);
      assert Number(bits) / 2 == Number(bits[1..]);
    }
  }

  lemma NoBits(bit: nat)
    ensures !HasBit(0, bit)
  {
  }

  function Pow2(k: nat): (p: nat)
    ensures p > 0
  {
    if k == 0 then 1 else 2 * Pow2(k - 1)
  }

  // What has been added up once the bits below one are looked at.
  function SumBelow(bits: seq<bool>, bit: nat): nat
    requires bit <= |bits|
  {
    if bit == 0 then 0 else SumBelow(bits, bit - 1) + if bits[bit - 1] then Pow2(bit - 1) else 0
  }

  lemma Distribute(p: nat, w: nat, rest: nat)
    ensures p * (w + 2 * rest) == p * w + (2 * p) * rest
  {
  }

  lemma {:induction false} SumSplits(bits: seq<bool>, bit: nat)
    requires bit <= |bits|
    ensures SumBelow(bits, bit) + Pow2(bit) * Number(bits[bit..]) == Number(bits)
    ensures SumBelow(bits, bit) < Pow2(bit)
  {
    if bit == 0 {
      assert bits[0..] == bits;
    } else {
      var low := bit - 1;
      SumSplits(bits, low);
      assert bits[low..][1..] == bits[bit..];
      Distribute(Pow2(low), if bits[low] then 1 else 0, Number(bits[bit..]));
    }
  }

  // ---------- runs ----------

  // A send that fails may have written any of the fields it was asked to write.
  // A handler stands for the delegate with its parameter.
  datatype Event =
    | Put(field: Field, value: Value)
    | Read(ok: bool)
    | Send(error: bool, written: set<Field>)
    | Install(handler: nat)

  datatype State = State(native: map<Field, Value>, flags: set<Field>, server: map<Field, Value>,
                         handler: Option<nat>, installed: bool, installedId: Option<Value>)

  function Select(values: map<Field, Value>, fields: set<Field>): map<Field, Value> {
    map field | field in values && field in fields :: values[field]
  }

  function Lookup(values: map<Field, Value>, field: Field): Option<Value> {
    if field in values then Some(values[field]) else None
  }

  function Step(s: State, event: Event): State {
    match event
    case Put(field, value) => s.(native := s.native[field := value], flags := s.flags + {field})
    case Read(ok) => if ok then s.(native := s.native + s.server) else s
    case Send(error, written) =>
      var stored := if error then s.flags * written else s.flags;
      s.(server := s.server + Select(s.native, stored), flags := {})
    case Install(handler) =>
      var t := s.(handler := Some(handler));
      if s.installed then t else t.(installed := true, installedId := Lookup(s.native, RptId))
  }

  predicate Legal(events: seq<Event>) {
    forall k :: 0 <= k < |events| && events[k].Put? ==> Settable(events[k].field)
  }

  function Init(events: seq<Event>): seq<Event>
    requires events != []
  {
    events[..|events| - 1]
  }

  function Last(events: seq<Event>): Event
    requires events != []
  {
    events[|events| - 1]
  }

  function Run(s: State, events: seq<Event>): State {
    if events == [] then s else Step(Run(s, Init(events)), Last(events))
  }

  function Created(server: map<Field, Value>): State {
    State(map[], {}, server, None, false, None)
  }

  // ---------- what the history of calls says ----------

  function SetSinceSend(events: seq<Event>): set<Field> {
    if events == [] || Last(events).Send? then {}
    else if Last(events).Put? then SetSinceSend(Init(events)) + {Last(events).field}
    else SetSinceSend(Init(events))
  }

  predicate ReadOrSet(events: seq<Event>, field: Field) {
    events != [] && (Last(events) == Read(true) || (Last(events).Put? && Last(events).field == field)
                     || ReadOrSet(Init(events), field))
  }

  // The last send of the field failed without storing it, and no read has come since.
  predicate Lost(events: seq<Event>, field: Field) {
    if events == [] || Last(events) == Read(true) then false
    else if Last(events).Send? && field in SetSinceSend(Init(events)) then
      Last(events).error && field !in Last(events).written
    else Lost(Init(events), field)
  }

  function LastPut(events: seq<Event>, field: Field): Option<Value> {
    if events == [] then None
    else if Last(events).Put? && Last(events).field == field then Some(Last(events).value)
    else LastPut(Init(events), field)
  }

  predicate ReadSincePut(events: seq<Event>, field: Field) {
    if events == [] || (Last(events).Put? && Last(events).field == field) then false
    else Last(events) == Read(true) || ReadSincePut(Init(events), field)
  }

  // ---------- theorems ----------

  lemma {:induction false} FlagsAreSetSinceSend(server: map<Field, Value>, events: seq<Event>)
    requires Legal(events)
    ensures Run(Created(server), events).flags == SetSinceSend(events)
    ensures forall field :: field in SetSinceSend(events) ==> Settable(field)
  {
    if events != [] {
      FlagsAreSetSinceSend(server, Init(events));
    }
  }

  // Over any run, a bit of the mask that would be sent next is set exactly if its field was set since
  // the send before; the bits without a field and those of ConfRev, SqNum and ResvTms are never set.
  lemma SentMask(server: map<Field, Value>, events: seq<Event>, bit: nat)
    requires Legal(events)
    ensures var mask := MaskOf(Run(Created(server), events).flags);
            && (HasBit(mask, bit) <==> FieldAt(bit).Some? && FieldAt(bit).value in SetSinceSend(events))
            && (bit == 4 || bit == 7 || bit >= 13 ==> !HasBit(mask, bit))
  {
    FlagsAreSetSinceSend(server, events);
    NumberBits(Bits(Run(Created(server), events).flags), bit);
  }

  // The same bit by bit: what each bit of the next mask stands for.
  lemma MaskTable(server: map<Field, Value>, events: seq<Event>)
    requires Legal(events)
    ensures var mask, flagged := MaskOf(Run(Created(server), events).flags), SetSinceSend(events);
            && (HasBit(mask, 0) <==> RptId in flagged)
            && (HasBit(mask, 1) <==> RptEna in flagged)
            && (HasBit(mask, 2) <==> Resv in flagged)
            && (HasBit(mask, 3) <==> DataSetReference in flagged)
            && (HasBit(mask, 5) <==> OptFlds in flagged)
            && (HasBit(mask, 6) <==> BufTm in flagged)
            && (HasBit(mask, 8) <==> TrgOps in flagged)
            && (HasBit(mask, 9) <==> IntgPd in flagged)
            && (HasBit(mask, 10) <==> GI in flagged)
            && (HasBit(mask, 11) <==> PurgeBuf in flagged)
            && (HasBit(mask, 12) <==> EntryId in flagged)
  {
    SentMask(server, events, 0);
    SentMask(server, events, 1);
    SentMask(server, events, 2);
    SentMask(server, events, 3);
    SentMask(server, events, 5);
    SentMask(server, events, 6);
    SentMask(server, events, 8);
    SentMask(server, events, 9);
    SentMask(server, events, 10);
    SentMask(server, events, 11);
    SentMask(server, events, 12);
  }

  lemma {:induction false} ServerKeeps(server: map<Field, Value>, events: seq<Event>, field: Field)
    requires field in server
    ensures field in Run(Created(server), events).server
  {
    if events != [] {
      ServerKeeps(server, Init(events), field);
    }
  }

  predicate InStep(s: State, field: Field, lost: bool) {
    && field in s.native && field in s.server
    && (field !in s.flags && !lost ==> s.native[field] == s.server[field])
  }

  lemma StepKeepsInStep(s: State, event: Event, field: Field, known: bool, lost: bool)
    requires field in s.server && (known ==> InStep(s, field, lost))
    requires !known ==> field !in s.flags
    ensures event == Read(true) ==> InStep(Step(s, event), field, false)
    ensures known && event.Send? && field in s.flags ==>
              InStep(Step(s, event), field, event.error && field !in event.written)
    ensures event.Put? && event.field == field ==> InStep(Step(s, event), field, lost)
    ensures known && !(event.Send? && field in s.flags) ==> InStep(Step(s, event), field, lost)
  {
  }

  // Over any run without another writer, a field that was read or set and carries no flag has the server's
  // value, unless its last send failed without storing it.
  lemma {:induction false} UnflaggedIsServers(server: map<Field, Value>, events: seq<Event>, field: Field)
    requires Legal(events) && field in server
    ensures var s := Run(Created(server), events);
            if ReadOrSet(events, field) then InStep(s, field, Lost(events, field)) else field !in s.flags
  {
    if events != [] {
      var before := Init(events);
      UnflaggedIsServers(server, before, field);
      FlagsAreSetSinceSend(server, before);
      ServerKeeps(server, before, field);
      StepKeepsInStep(Run(Created(server), before), Last(events), field, ReadOrSet(before, field), Lost(before, field));
    }
  }

  // The value waiting behind a flag, or lost by a failed send, is the last one set, but a read since replaces
  // it by the server's: the next send then writes the server's own value back.
  lemma {:induction false} PendingValue(server: map<Field, Value>, events: seq<Event>, field: Field)
    requires Legal(events) && field in server
    requires field in Run(Created(server), events).flags || Lost(events, field)
    ensures var s := Run(Created(server), events);
            && LastPut(events, field).Some? && field in s.native && field in s.server
            && s.native[field] == if ReadSincePut(events, field) then s.server[field] else LastPut(events, field).value
  {
    FlagsAreSetSinceSend(server, events);
    ServerKeeps(server, Init(events), field);
    if !(Last(events).Put? && Last(events).field == field) {
      var before := Init(events);
      PendingBefore(events, field);
      FlagsAreSetSinceSend(server, before);
      PendingValue(server, before, field);
      StepKeepsPending(Run(Created(server), before), Last(events), field, LastPut(before, field).value,
                       ReadSincePut(before, field));
    }
  }

  lemma PendingBefore(events: seq<Event>, field: Field)
    requires field in SetSinceSend(events) || Lost(events, field)
    requires !(Last(events).Put? && Last(events).field == field)
    ensures field in SetSinceSend(Init(events)) || Lost(Init(events), field)
    ensures Last(events).Send? && field in SetSinceSend(Init(events)) ==>
              Last(events).error && field !in Last(events).written
  {
  }

  lemma StepKeepsPending(s: State, event: Event, field: Field, value: Value, read: bool)
    requires field in s.native && field in s.server && s.native[field] == if read then s.server[field] else value
    requires event.Send? && field in s.flags ==> event.error && field !in event.written
    requires !(event.Put? && event.field == field)
    ensures var t := Step(s, event);
            && field in t.native && field in t.server
            && t.native[field] == if read || event == Read(true) then t.server[field] else value
  {
  }

  // Exactly when an unflagged field that was read or set has the server's value: its last send did not fail,
  // or the value sent had been read back, or the server has the last value set all the same.
  lemma UnflaggedEqualIff(server: map<Field, Value>, events: seq<Event>, field: Field)
    requires Legal(events) && field in server && ReadOrSet(events, field)
    requires field !in Run(Created(server), events).flags
    ensures var s := Run(Created(server), events);
            && field in s.native && field in s.server
            && (s.native[field] == s.server[field] <==>
                 !Lost(events, field) || ReadSincePut(events, field) || LastPut(events, field) == Some(s.server[field]))
  {
    UnflaggedIsServers(server, events, field);
    if Lost(events, field) {
      PendingValue(server, events, field);
    }
  }

  lemma {:induction false} NothingLost(events: seq<Event>, field: Field)
    requires forall k :: 0 <= k < |events| ==> !(events[k].Send? && events[k].error)
    ensures !Lost(events, field)
  {
    if events != [] {
      NothingLost(Init(events), field);
    }
  }

  // So if no send has failed, every unflagged field that was read or set has the server's value.
  lemma SuccessfulSendsAgree(server: map<Field, Value>, events: seq<Event>)
    requires Legal(events) && forall k :: 0 <= k < |events| ==> !(events[k].Send? && events[k].error)
    ensures var s := Run(Created(server), events);
            forall field :: field in server && ReadOrSet(events, field) && field !in s.flags ==>
              field in s.native && field in s.server && s.native[field] == s.server[field]
  {
    var s := Run(Created(server), events);
    forall field | field in server && ReadOrSet(events, field) && field !in s.flags
      ensures field in s.native && field in s.server && s.native[field] == s.server[field]
    {
      NothingLost(events, field);
      UnflaggedIsServers(server, events, field);
    }
  }

  // A run in which they differ: a new buffer time whose send fails.
  lemma LostBufferTime(server: map<Field, Value>, value: Value)
    requires BufTm in server && server[BufTm] != value
    ensures var events := [Put(BufTm, value), Send(true, {})];
            var s := Run(Created(server), events);
            && Legal(events) && ReadOrSet(events, BufTm) && BufTm !in s.flags
            && BufTm in s.native && BufTm in s.server && s.native[BufTm] != s.server[BufTm]
  {
    var events := [Put(BufTm, value), Send(true, {})];
    assert Init(events) == [Put(BufTm, value)] && Init(Init(events)) == [];
    var s := Created(server);
    assert Run(s, Init(Init(events))) == s;
    assert Run(s, Init(events)) == Step(s, Put(BufTm, value));
    assert Run(s, events) == Step(Step(s, Put(BufTm, value)), Send(true, {}));
  }

  // So a successful send brings the last set value to the server exactly if no read came in between,
  // or the server already had it.
  lemma SendDelivers(server: map<Field, Value>, events: seq<Event>, field: Field, written: set<Field>)
    requires Legal(events) && field in server && field in Run(Created(server), events).flags
    ensures var s := Run(Created(server), events);
            var after := Step(s, Send(false, written));
            && LastPut(events, field).Some? && field in s.server && field in after.server
            && (after.server[field] == LastPut(events, field).value
                <==> !ReadSincePut(events, field) || s.server[field] == LastPut(events, field).value)
  {
    PendingValue(server, events, field);
  }

  predicate Touches(event: Event, field: Field) {
    event == Read(true) || (event.Put? && event.field == field)
  }

  lemma {:induction false} StaysApart(s: State, events: seq<Event>, field: Field)
    requires field !in s.flags && field in s.native && field in s.server
    requires forall k :: 0 <= k < |events| ==> !Touches(events[k], field)
    ensures var t := Run(s, events);
            && field !in t.flags && field in t.native && field in t.server
            && t.native[field] == s.native[field] && t.server[field] == s.server[field]
  {
    if events != [] {
      assert !Touches(Last(events), field);
      StaysApart(s, Init(events), field);
    }
  }

  // A failed send clears the flag of a field it did not store. Whatever is sent afterwards, without a read or a
  // new value the two sides keep their values, and so differ exactly if the field was set to something new.
  lemma FailedSendDiverges(s: State, field: Field, written: set<Field>, events: seq<Event>)
    requires field in s.flags && field in s.native && field in s.server && field !in written
    requires forall k :: 0 <= k < |events| ==> !Touches(events[k], field)
    ensures var t := Run(Step(s, Send(true, written)), events);
            && field !in t.flags && field in t.native && field in t.server
            && t.native[field] == s.native[field] && t.server[field] == s.server[field]
            && (t.native[field] != t.server[field] <==> s.native[field] != s.server[field])
  {
    StaysApart(Step(s, Send(true, written)), events, field);
  }

  // The handler of the last installation, if any.
  function LastHandler(events: seq<Event>): Option<nat> {
    if events == [] then None
    else if Last(events).Install? then Some(Last(events).handler)
    else LastHandler(Init(events))
  }

  // Over any run reports go to the handler named last, while the connection is asked for them once only.
  lemma {:induction false} HandlerIsLast(server: map<Field, Value>, events: seq<Event>)
    ensures var s := Run(Created(server), events);
            s.handler == LastHandler(events) && (s.installed <==> s.handler.Some?)
  {
    if events != [] {
      HandlerIsLast(server, Init(events));
    }
  }

  // The first installation asks the connection under the report identifier the block has at that moment.
  lemma InstallsUnderIdentifier(s: State, events: seq<Event>, handler: nat)
    requires !Run(s, events).installed
    ensures var before, after := Run(s, events), Run(s, events + [Install(handler)]);
            && after.installed && after.handler == Some(handler)
            && (RptId in before.native ==> after.installedId == Some(before.native[RptId]))
            && (RptId !in before.native ==> after.installedId == None)
            && after.native == before.native && after.flags == before.flags && after.server == before.server
  {
    assert Init(events + [Install(handler)]) == events;
  }

  // Once installed, it stays installed under the report identifier of that moment, whatever becomes of the
  // identifier.
  lemma {:induction false} HandlerStays(s: State, events: seq<Event>)
    requires s.installed
    ensures Run(s, events).installed && Run(s, events).installedId == s.installedId
  {
    if events != [] {
      HandlerStays(s, Init(events));
    }
  }

  // ---------- the classes ----------

  class Server {
    var block: map<Field, Value>

    constructor (values: map<Field, Value>)
      ensures block == values
    {
      block := values;
    }
  }

  class ReportControlBlock {
    const server: Server
    var native: map<Field, Value>
    var flags: set<Field>
    var handler: Option<nat>
    var installed: bool
    var installedId: Option<Value>

    // A handler is installed as soon as one is given.
    predicate Valid()
      reads this
    {
      installed <==> handler.Some?
    }

    function Snapshot(): State
      reads this, server
    {
      State(native, flags, server.block, handler, installed, installedId)
    }

    constructor (connection: Server)
      ensures Valid() && server == connection && Snapshot() == Created(connection.block)
    {
      server := connection;
      native, flags, handler, installed, installedId := map[], {}, None, false, None;
    }

    // Every setter: the native field and its flag.
    method SetField(field: Field, value: Value)
      requires Valid() && Settable(field)
      modifies this
      ensures Valid()
      ensures Snapshot() == Step(old(Snapshot()), Put(field, value))
    {
      native := native[field := value];
      flags := flags + {field};
    }

    method InstallReportHandler(newHandler: nat)
      modifies this
      ensures Valid()
      ensures Snapshot() == Step(old(Snapshot()), Install(newHandler))
    {
      handler := Some(newHandler);
      if !installed {
        installedId := Lookup(native, RptId);
        installed := true;
      }
    }

    method GetRCBValues(ok: bool) returns (error: bool)
      requires Valid()
      modifies this
      ensures Valid()
      ensures error == !ok
      ensures Snapshot() == Step(old(Snapshot()), Read(ok))
    {
      if ok {
        native := native + server.block;
      }
      error := !ok;
    }

    // The part behind a successful send: installs the handler anew if the report identifier is flagged.
    method Reinstall()
      requires Valid()
      modifies this
      ensures Valid()
      ensures RptId !in old(flags) ==> Snapshot() == old(Snapshot())
      ensures RptId in old(flags) && old(installed) ==>
                Snapshot() == old(Snapshot()).(installedId := Lookup(old(native), RptId))
    {
      if RptId in flags {
        if installed {
          installed := false;
          InstallReportHandler(handler.value);
        }
      }
    }

    // One step of the sum: the weight of a flagged field.
    method AddIfFlagged(mask: nat, ghost bit: nat, field: Field, weight: nat) returns (sum: nat)
      requires FieldAt(bit) == Some(field) && weight == Pow2(bit) && bit < 15 && mask == SumBelow(Bits(flags), bit)
      ensures sum == SumBelow(Bits(flags), bit + 1)
    {
      sum := mask;
      if field in flags {
        sum := sum + weight;
      }
    }

    // The first half of the chain of tests, and the second.
    method LowMask() returns (mask: nat)
      ensures mask == SumBelow(Bits(flags), 7)
    {
      mask := 0;
      mask := AddIfFlagged(mask, 0, RptId, 1);
      mask := AddIfFlagged(mask, 1, RptEna, 2);
      mask := AddIfFlagged(mask, 2, Resv, 4);
      mask := AddIfFlagged(mask, 3, DataSetReference, 8);
      mask := AddIfFlagged(mask, 4, ConfRev, 16);
      mask := AddIfFlagged(mask, 5, OptFlds, 32);
      mask := AddIfFlagged(mask, 6, BufTm, 64);
    }

    method HighMask(low: nat) returns (mask: nat)
      requires low == SumBelow(Bits(flags), 7)
      ensures mask == SumBelow(Bits(flags), 15)
    {
      mask := low;
      mask := AddIfFlagged(mask, 7, SqNum, 128);
      mask := AddIfFlagged(mask, 8, TrgOps, 256);
      mask := AddIfFlagged(mask, 9, IntgPd, 512);
      mask := AddIfFlagged(mask, 10, GI, 1024);
      mask := AddIfFlagged(mask, 11, PurgeBuf, 2048);
      mask := AddIfFlagged(mask, 12, EntryId, 4096);
      assert SumBelow(Bits(flags), 14) == SumBelow(Bits(flags), 13);
      mask := AddIfFlagged(mask, 14, ResvTms, 16384);
    }

    method ParametersMask() returns (mask: nat)
      ensures mask == MaskOf(flags) && mask < 0x8000
    {
      mask := LowMask();
      mask := HighMask(mask);
      assert Pow2(15) == 0x8000;
      SumSplits(Bits(flags), 15);
    }

    // The flags are cleared whatever the service says, and before the report identifier's flag is looked at.
    method SetRCBValues(failed: bool, written: set<Field>) returns (mask: nat, error: bool)
      requires Valid()
      modifies this, server
      ensures Valid()
      ensures mask == MaskOf(old(flags)) && error == failed
      ensures Snapshot() == Step(old(Snapshot()), Send(failed, written))
    {
      mask := ParametersMask();
      var stored := if failed then flags * written else flags;
      server.block := server.block + Select(native, stored);
      flags := {};
      error := failed;
      if !error {
        Reinstall();
      }
    }
  }
}
