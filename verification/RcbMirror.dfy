// A report control block in three places: on the server, in the client's cache, on display.
module RcbMirror {
  import opened Strings

  const OPT_FLDS: seq<string> := ["SEQ_NUM", "BUFFER_OVERFLOW", "CONF_REV", "DATA_REFERENCE", "DATA_SET", "ENTRY_ID",
                                  "REASON_FOR_INCLUSION", "TIME_STAMP"]
  const TRG_OPS: seq<string> := ["DATA_CHANGED", "DATA_UPDATE", "GI", "INTEGRITY", "QUALITY_CHANGED"]

  // The options of a mask in the order they are tested.
  function Chosen(options: seq<string>, mask: set<string>): seq<string> {
    if options == [] then [] else (if options[0] in mask then [options[0]] else []) + Chosen(options[1..], mask)
  }

  lemma {:induction false} ChosenFacts(options: seq<string>, mask: set<string>)
    ensures forall x :: x in Chosen(options, mask) <==> x in options && x in mask
  {
    if options != [] {
      ChosenFacts(options[1..], mask);
      assert forall x :: x in options <==> x == options[0] || x in options[1..];
    }
  }

  // getRCBOptFldsString and getRCBTrgOpsString
  function MaskText(options: seq<string>, mask: set<string>): string {
    if Chosen(options, mask) == [] then "NONE" else Join(Chosen(options, mask), ',')
  }

  // The text of a mask tells which options it holds.
  lemma MaskTextInjective(options: seq<string>, a: set<string>, b: set<string>)
    requires forall i :: 0 <= i < |options| ==> ',' !in options[i] && options[i] != "NONE"
    requires MaskText(options, a) == MaskText(options, b)
    ensures forall x :: x in options ==> (x in a <==> x in b)
  {
    var ca, cb := Chosen(options, a), Chosen(options, b);
    var none: seq<string> := ["NONE"];
    ChosenFacts(options, a);
    ChosenFacts(options, b);
    assert (forall i :: 0 <= i < |ca| ==> ca[i] in options) && forall i :: 0 <= i < |cb| ==> cb[i] in options;
    if ca != [] {
      SplitJoin(ca, ',');
    }
    if cb != [] {
      SplitJoin(cb, ',');
    }
    SplitJoin(none, ',');
    assert Join(none, ',') == "NONE";
    assert ca == cb;
    forall x | x in options
      ensures x in a <==> x in b
    {
      assert x in ca <==> x in cb;
    }
  }

  datatype Block = Block(rptId: string, rptEna: bool, datSet: string, confRev: nat, bufTm: nat, intgPd: nat,
                         optFlds: set<string>, trgOps: set<string>)

  datatype Display = Display(rptId: string, rptEna: bool, datSet: string, confRev: nat, bufTm: nat, intgPd: nat,
                             optFlds: string, trgOps: string)

  function Show(b: Block): Display {
    Display(b.rptId, b.rptEna, b.datSet, b.confRev, b.bufTm, b.intgPd,
            MaskText(OPT_FLDS, b.optFlds), MaskText(TRG_OPS, b.trgOps))
  }

  // The values a user can set; numbers are cast to 32 bits.
  datatype Setting =
    | RptEna(b: bool)
    | RptId(s: string)
    | DatSet(s: string)
    | BufTm(n: int)
    | IntgPd(n: int)
    | OptFlds(mask: set<string>)
    | TrgOps(mask: set<string>)

  function Uint32(n: int): nat {
    n % 0x1_0000_0000
  }

  function Put(b: Block, v: Setting): Block {
    match v
    case RptEna(x) => b.(rptEna := x)
    case RptId(s) => b.(rptId := s)
    case DatSet(s) => b.(datSet := s)
    case BufTm(n) => b.(bufTm := Uint32(n))
    case IntgPd(n) => b.(intgPd := Uint32(n))
    case OptFlds(mask) => b.(optFlds := mask)
    case TrgOps(mask) => b.(trgOps := mask)
  }

  // A successful write copies the one element it names from the cached block.
  function Written(server: Block, cached: Block, v: Setting): Block {
    match v
    case RptEna(_) => server.(rptEna := cached.rptEna)
    case RptId(_) => server.(rptId := cached.rptId)
    case DatSet(_) => server.(datSet := cached.datSet)
    case BufTm(_) => server.(bufTm := cached.bufTm)
    case IntgPd(_) => server.(intgPd := cached.intgPd)
    case OptFlds(_) => server.(optFlds := cached.optFlds)
    case TrgOps(_) => server.(trgOps := cached.trgOps)
  }

  datatype State = State(server: Block, cached: Block, shown: Display)

  // An action and the server's answers: whether the write and the recovery read succeed, and whether the
  // server stored a value although it answered the write with an error. Asking for reports changes no copy.
  datatype Event =
    | Set(v: Setting, written: bool, stored: bool, reread: bool)
    | Read(ok: bool)
    | ForceGI(ok: bool)

  function Step(s: State, e: Event): State {
    match e
    case Set(v, written, stored, reread) =>
      var cached := Put(s.cached, v);
      var server := if written || stored then Written(s.server, cached, v) else s.server;
      if !written && reread then State(server, server, Show(server)) else State(server, cached, Show(cached))
    case Read(ok) => if ok then State(s.server, s.server, Show(s.server)) else s
    case ForceGI(_) => s
  }

  // Discovery reads the block and displays it.
  function Start(server: Block): State {
    State(server, server, Show(server))
  }

  function Run(server: Block, es: seq<Event>): State {
    if es == [] then Start(server) else Step(Run(server, es[..|es| - 1]), es[|es| - 1])
  }

  // ---------------------------------------------------------------- the code

  class RcbNode {
    var server: Block
    var cached: Block
    var shown: Display

    function View(): State
      reads this
    {
      State(server, cached, shown)
    }

    constructor (b: Block)
      ensures View() == Start(b)
    {
      server, cached, shown := b, b, Show(b);
    }

    // setNodeRCBValues: the eight displayed fields, one by one
    method SetNodeRCBValues()
      modifies this`shown
      ensures shown == Show(cached)
    {
      shown := shown.(rptId := cached.rptId);
      shown := shown.(rptEna := cached.rptEna);
      shown := shown.(datSet := cached.datSet);
      shown := shown.(confRev := cached.confRev);
      shown := shown.(bufTm := cached.bufTm);
      shown := shown.(intgPd := cached.intgPd);
      shown := shown.(optFlds := MaskText(OPT_FLDS, cached.optFlds));
      shown := shown.(trgOps := MaskText(TRG_OPS, cached.trgOps));
    }

    // The client's own copies of the named field, cached and displayed.
    method PutLocal(v: Setting)
      requires shown == Show(cached)
      modifies this`cached, this`shown
      ensures cached == Put(old(cached), v) && shown == Show(cached)
    {
      match v {
        case RptEna(b) =>
          cached := cached.(rptEna := b);
          shown := shown.(rptEna := b);
        case RptId(s) =>
          cached := cached.(rptId := s);
          shown := shown.(rptId := s);
        case DatSet(s) =>
          cached := cached.(datSet := s);
          shown := shown.(datSet := s);
        case BufTm(n) =>
          cached := cached.(bufTm := Uint32(n));
          shown := shown.(bufTm := Uint32(n));
        case IntgPd(n) =>
          cached := cached.(intgPd := Uint32(n));
          shown := shown.(intgPd := Uint32(n));
        case OptFlds(mask) =>
          cached := cached.(optFlds := mask);
          shown := shown.(optFlds := MaskText(OPT_FLDS, mask));
        case TrgOps(mask) =>
          cached := cached.(trgOps := mask);
          shown := shown.(trgOps := MaskText(TRG_OPS, mask));
      }
    }

    // The seven set actions: they differ only in the field. The values written, stored and
    // reread are what the server does.
    method SetAction(connected: bool, v: Setting, written: bool, stored: bool, reread: bool)
      requires shown == Show(cached)
      modifies this
      ensures View() == if connected then Step(old(View()), Event.Set(v, written, stored, reread)) else old(View())
    {
      if connected {
        PutLocal(v);
        if written || stored {
          server := Written(server, cached, v);
        }
        if !written {
          if reread {
            cached := server;
          }
          SetNodeRCBValues();
        }
      }
    }

    method ReadRCBAction(connected: bool, ok: bool)
      modifies this
      ensures View() == if connected then Step(old(View()), Event.Read(ok)) else old(View())
    {
      if connected {
        if ok {
          cached := server;
          SetNodeRCBValues();
        }
      }
    }
  }

  // ---------------------------------------------------------------- safety over runs

  // The field a setting names.
  datatype FieldName = FRptEna | FRptId | FDatSet | FBufTm | FIntgPd | FOptFlds | FTrgOps

  function FieldOf(v: Setting): FieldName {
    match v
    case RptEna(_) => FRptEna
    case RptId(_) => FRptId
    case DatSet(_) => FDatSet
    case BufTm(_) => FBufTm
    case IntgPd(_) => FIntgPd
    case OptFlds(_) => FOptFlds
    case TrgOps(_) => FTrgOps
  }

  // One field of two blocks agrees.
  predicate Same(a: Block, b: Block, f: FieldName) {
    match f
    case FRptEna => a.rptEna == b.rptEna
    case FRptId => a.rptId == b.rptId
    case FDatSet => a.datSet == b.datSet
    case FBufTm => a.bufTm == b.bufTm
    case FIntgPd => a.intgPd == b.intgPd
    case FOptFlds => a.optFlds == b.optFlds
    case FTrgOps => a.trgOps == b.trgOps
  }

  // Two blocks agree on every field but those in a set; nothing ever sets the revision.
  predicate AgreeOff(a: Block, b: Block, stale: set<FieldName>) {
    a.confRev == b.confRev && forall f :: f in stale || Same(a, b, f)
  }

  // A write takes over the value that was set, whatever else the cache holds.
  lemma WrittenIsPut(server: Block, cached: Block, v: Setting)
    ensures Written(server, Put(cached, v), v) == Put(server, v)
  {
  }

  // Two settings of one field leave the later one, two of different fields may change places.
  lemma PutTwice(b: Block, w: Setting, v: Setting)
    ensures Put(Put(b, w), v) == if FieldOf(w) == FieldOf(v) then Put(b, v) else Put(Put(b, v), w)
  {
  }

  // Settings applied in order.
  function PutAll(b: Block, vs: seq<Setting>): Block {
    if vs == [] then b else Put(PutAll(b, vs[..|vs| - 1]), vs[|vs| - 1])
  }

  function Without(vs: seq<Setting>, f: FieldName): (r: seq<Setting>)
    ensures forall v :: v in r <==> v in vs && FieldOf(v) != f
  {
    if vs == [] then []
    else
      var before, last := vs[..|vs| - 1], vs[|vs| - 1];
      assert vs == before + [last];
      Without(before, f) + if FieldOf(last) == f then [] else [last]
  }

  predicate DistinctFields(vs: seq<Setting>) {
    forall i, j :: 0 <= i < j < |vs| ==> FieldOf(vs[i]) != FieldOf(vs[j])
  }

  // The settings whose write and recovery read both failed, and which nothing has put right since.
  function Outstanding(es: seq<Event>): seq<Setting> {
    if es == [] then [] else OutstandingStep(Outstanding(es[..|es| - 1]), es[|es| - 1])
  }

  function OutstandingStep(before: seq<Setting>, e: Event): seq<Setting> {
    match e
    case Set(v, written, stored, reread) =>
      if !written && reread then []
      else if written || stored then Without(before, FieldOf(v))
      else Without(before, FieldOf(v)) + [v]
    case Read(ok) => if ok then [] else before
    case ForceGI(_) => before
  }

  // Their fields.
  function Stale(es: seq<Event>): set<FieldName> {
    set v | v in Outstanding(es) :: FieldOf(v)
  }

  lemma {:induction false} WithoutDistinct(vs: seq<Setting>, f: FieldName)
    requires DistinctFields(vs)
    ensures DistinctFields(Without(vs, f))
  {
    if vs != [] {
      var before, last := vs[..|vs| - 1], vs[|vs| - 1];
      WithoutDistinct(before, f);
      forall v | v in Without(before, f)
        ensures FieldOf(v) != FieldOf(last)
      {
        var i :| 0 <= i < |before| && before[i] == v;
        assert vs[i] == v;
      }
    }
  }

  lemma {:induction false} OutstandingDistinct(es: seq<Event>)
    ensures DistinctFields(Outstanding(es))
  {
    if es != [] {
      var before, e := Outstanding(es[..|es| - 1]), es[|es| - 1];
      OutstandingDistinct(es[..|es| - 1]);
      if e.Set? {
        WithoutDistinct(before, FieldOf(e.v));
      }
    }
  }

  lemma PutAllAppend(b: Block, vs: seq<Setting>, v: Setting)
    ensures PutAll(b, vs + [v]) == Put(PutAll(b, vs), v)
  {
    assert (vs + [v])[..|vs|] == vs;
  }

  // A further setting passes all others and replaces those of its own field.
  lemma {:induction false} PutOver(b: Block, vs: seq<Setting>, v: Setting)
    ensures Put(PutAll(b, vs), v) == PutAll(Put(b, v), Without(vs, FieldOf(v)))
    ensures Put(PutAll(b, vs), v) == Put(PutAll(b, Without(vs, FieldOf(v))), v)
  {
    if vs != [] {
      var before, last := vs[..|vs| - 1], vs[|vs| - 1];
      var kept := Without(before, FieldOf(v));
      PutOver(b, before, v);
      PutTwice(PutAll(b, before), last, v);
      if FieldOf(last) == FieldOf(v) {
        assert Without(vs, FieldOf(v)) == kept;
      } else {
        assert Without(vs, FieldOf(v)) == kept + [last];
        PutAllAppend(b, kept, last);
        PutAllAppend(Put(b, v), kept, last);
        PutTwice(PutAll(b, kept), last, v);
      }
    }
  }

  lemma CachedStep(s: State, e: Event, before: seq<Setting>)
    requires s.cached == PutAll(s.server, before)
    ensures Step(s, e).cached == PutAll(Step(s, e).server, OutstandingStep(before, e))
  {
    if e.Set? {
      var kept := Without(before, FieldOf(e.v));
      PutOver(s.server, before, e.v);
      WrittenIsPut(s.server, s.cached, e.v);
      PutAllAppend(s.server, kept, e.v);
    }
  }

  // In every reachable state the display equals the cached block, and the cached block is the server's
  // with the outstanding settings applied to it.
  lemma {:induction false} CachedIsOutstanding(server: Block, es: seq<Event>)
    ensures var s := Run(server, es);
            s.shown == Show(s.cached) && s.cached == PutAll(s.server, Outstanding(es))
  {
    if es != [] {
      CachedIsOutstanding(server, es[..|es| - 1]);
      CachedStep(Run(server, es[..|es| - 1]), es[|es| - 1], Outstanding(es[..|es| - 1]));
    }
  }

  lemma PutSame(b: Block, v: Setting, f: FieldName)
    ensures f != FieldOf(v) ==> Same(Put(b, v), b, f)
    ensures Put(b, v).confRev == b.confRev
  {
  }

  lemma {:induction false} PutAllAgrees(b: Block, vs: seq<Setting>, f: FieldName)
    requires forall v :: v in vs ==> FieldOf(v) != f
    ensures Same(PutAll(b, vs), b, f)
  {
    if vs != [] {
      var before := vs[..|vs| - 1];
      PutAllAgrees(b, before, f);
      PutSame(PutAll(b, before), vs[|vs| - 1], f);
    }
  }

  lemma {:induction false} PutAllRevision(b: Block, vs: seq<Setting>)
    ensures PutAll(b, vs).confRev == b.confRev
  {
    if vs != [] {
      PutAllRevision(b, vs[..|vs| - 1]);
    }
  }

  // So the cached block equals the server's block in every field that is not stale.
  lemma MirrorSafe(server: Block, es: seq<Event>)
    ensures var s := Run(server, es);
            s.shown == Show(s.cached) && AgreeOff(s.cached, s.server, Stale(es))
  {
    var s := Run(server, es);
    CachedIsOutstanding(server, es);
    PutAllRevision(s.server, Outstanding(es));
    forall f | f !in Stale(es)
      ensures Same(s.cached, s.server, f)
    {
      PutAllAgrees(s.server, Outstanding(es), f);
    }
  }

  lemma {:induction false} PutAllIdle(b: Block, vs: seq<Setting>)
    requires forall v :: v in vs ==> Put(b, v) == b
    ensures PutAll(b, vs) == b
  {
    if vs != [] {
      PutAllIdle(b, vs[..|vs| - 1]);
    }
  }

  // Of settings of distinct fields each shows in its own field.
  lemma {:induction false} PutAllShows(b: Block, vs: seq<Setting>, v: Setting)
    requires DistinctFields(vs) && v in vs
    ensures Same(PutAll(b, vs), Put(b, v), FieldOf(v))
  {
    var before, last := vs[..|vs| - 1], vs[|vs| - 1];
    if v in before {
      PutAllShows(b, before, v);
      var i :| 0 <= i < |before| && before[i] == v;
      assert vs[i] == v;
      PutSame(PutAll(b, before), last, FieldOf(v));
    } else {
      assert v == last;
    }
  }

  lemma SameIsIdle(b: Block, v: Setting)
    requires Same(b, Put(b, v), FieldOf(v))
    ensures Put(b, v) == b
  {
  }

  // In every reachable state all three copies are equal if and only if every outstanding setting names
  // the value the server has.
  lemma CopiesEqualIff(server: Block, es: seq<Event>)
    ensures var s := Run(server, es);
            (s.cached == s.server && s.shown == Show(s.server))
            <==> forall v :: v in Outstanding(es) ==> Put(s.server, v) == s.server
  {
    var s, vs := Run(server, es), Outstanding(es);
    CachedIsOutstanding(server, es);
    OutstandingDistinct(es);
    if s.cached == s.server {
      forall v | v in vs
        ensures Put(s.server, v) == s.server
      {
        PutAllShows(s.server, vs, v);
        SameIsIdle(s.server, v);
      }
    }
    if forall v :: v in vs ==> Put(s.server, v) == s.server {
      PutAllIdle(s.server, vs);
    }
  }

  predicate DoubleFailure(e: Event) {
    e.Set? && !e.written && !e.stored && !e.reread
  }

  lemma {:induction false} NothingOutstanding(es: seq<Event>)
    requires forall i :: 0 <= i < |es| ==> !DoubleFailure(es[i])
    ensures Outstanding(es) == []
  {
    if es != [] {
      NothingOutstanding(es[..|es| - 1]);
    }
  }

  // Unless a write and its recovery read both failed, all three copies agree.
  lemma MirrorExact(server: Block, es: seq<Event>)
    requires forall i :: 0 <= i < |es| ==> !DoubleFailure(es[i])
    ensures var s := Run(server, es); s.cached == s.server && s.shown == Show(s.server)
  {
    NothingOutstanding(es);
    CopiesEqualIff(server, es);
  }

  // A set that fails twice leaves cache and server equal exactly if it names the value the server has, and so
  // does every setting of another field that is still outstanding.
  lemma DoubleFailureDiverges(server: Block, es: seq<Event>, v: Setting)
    ensures var s := Run(server, es + [Event.Set(v, false, false, false)]);
            s.cached == s.server <==>
              && Put(s.server, v) == s.server
              && forall u :: u in Outstanding(es) && FieldOf(u) != FieldOf(v) ==> Put(s.server, u) == s.server
  {
    var e := Event.Set(v, false, false, false);
    assert (es + [e])[..|es|] == es;
    var s := Run(server, es + [e]);
    assert Outstanding(es + [e]) == Without(Outstanding(es), FieldOf(v)) + [v];
    CachedIsOutstanding(server, es + [e]);
    CopiesEqualIff(server, es + [e]);
  }

  // Only actions of this client change the server's block, and each only the field it names.
  lemma ServerChangesNamedField(server: Block, es: seq<Event>, e: Event)
    ensures var s, t := Run(server, es), Run(server, es + [e]);
            t.server == if e.Set? && (e.written || e.stored) then Put(s.server, e.v) else s.server
  {
    assert (es + [e])[..|es|] == es;
    var s := Run(server, es);
    assert Run(server, es + [e]) == Step(s, e);
    if e.Set? {
      WrittenIsPut(s.server, s.cached, e.v);
    }
  }

  // ---------------------------------------------------------------- what each action leaves behind

  lemma RunAppend(server: Block, es: seq<Event>, e: Event)
    ensures Run(server, es + [e]) == Step(Run(server, es), e)
  {
    assert (es + [e])[..|es + [e]| - 1] == es;
  }

  // The server and the cache after an action that sets one field to a value: next is the server's block before and
  // mine the cached one, each with that field changed and no other.
  predicate Took(s: State, t: State, next: Block, mine: Block, stores: bool, recovers: bool) {
    && t.server == (if stores then next else s.server)
    && t.cached == (if recovers then t.server else mine)
  }

  // In every run a set action puts the value it was given into the named field: into the cache, and into the server
  // exactly if the server stores it, and changes no other field of either. Only if the write is answered with an
  // error and read back, the cache is the server's block instead. Numbers are taken modulo 2 to the 32nd.
  lemma SetTakesEffect(server: Block, es: seq<Event>, v: Setting, written: bool, stored: bool, reread: bool)
    ensures var s, t := Run(server, es), Run(server, es + [Event.Set(v, written, stored, reread)]);
            var stores, recovers := written || stored, !written && reread;
            match v
            case RptEna(x) => Took(s, t, s.server.(rptEna := x), s.cached.(rptEna := x), stores, recovers)
            case RptId(x) => Took(s, t, s.server.(rptId := x), s.cached.(rptId := x), stores, recovers)
            case DatSet(x) => Took(s, t, s.server.(datSet := x), s.cached.(datSet := x), stores, recovers)
            case BufTm(n) =>
              Took(s, t, s.server.(bufTm := n % 0x1_0000_0000), s.cached.(bufTm := n % 0x1_0000_0000), stores, recovers)
            case IntgPd(n) =>
              Took(s, t, s.server.(intgPd := n % 0x1_0000_0000), s.cached.(intgPd := n % 0x1_0000_0000), stores,
                   recovers)
            case OptFlds(mask) => Took(s, t, s.server.(optFlds := mask), s.cached.(optFlds := mask), stores, recovers)
            case TrgOps(mask) => Took(s, t, s.server.(trgOps := mask), s.cached.(trgOps := mask), stores, recovers)
  {
    RunAppend(server, es, Event.Set(v, written, stored, reread));
    WrittenIsPut(Run(server, es).server, Run(server, es).cached, v);
  }

  // A successful read makes the cache the server's block; a failed one, and asking for reports, change nothing.
  lemma ReadTakesEffect(server: Block, es: seq<Event>, ok: bool)
    ensures var s, t := Run(server, es), Run(server, es + [Event.Read(ok)]);
            t.server == s.server && t.cached == (if ok then s.server else s.cached)
    ensures Run(server, es + [Event.ForceGI(ok)]) == Run(server, es)
  {
    RunAppend(server, es, Event.Read(ok));
    RunAppend(server, es, Event.ForceGI(ok));
    CachedIsOutstanding(server, es);
  }

  // A text whose words are the names of the options in a mask, or NONE if there are none.
  ghost predicate Words(text: string, options: seq<string>, mask: set<string>) {
    var words := Split(text, ',');
    if exists x :: x in options && x in mask then forall x :: x in words <==> x in options && x in mask
    else words == ["NONE"]
  }

  lemma MaskWords(options: seq<string>, mask: set<string>)
    requires forall i :: 0 <= i < |options| ==> ',' !in options[i]
    ensures Words(MaskText(options, mask), options, mask)
  {
    var chosen := Chosen(options, mask);
    var none: seq<string> := ["NONE"];
    ChosenFacts(options, mask);
    if chosen == [] {
      assert Join(none, ',') == "NONE";
      SplitJoin(none, ',');
    } else {
      assert forall i :: 0 <= i < |chosen| ==> chosen[i] in options;
      SplitJoin(chosen, ',');
      assert chosen[0] in chosen;
    }
  }

  lemma NamesHaveNoComma()
    ensures forall i :: 0 <= i < |OPT_FLDS| ==> ',' !in OPT_FLDS[i]
    ensures forall i :: 0 <= i < |TRG_OPS| ==> ',' !in TRG_OPS[i]
  {
  }

  // In every reachable state the six plain fields of the display are those of the cache, and the two masks are
  // displayed by their words.
  lemma DisplayShows(server: Block, es: seq<Event>)
    ensures var s := Run(server, es);
            && s.shown.rptId == s.cached.rptId && s.shown.rptEna == s.cached.rptEna && s.shown.datSet == s.cached.datSet
            && s.shown.confRev == s.cached.confRev && s.shown.bufTm == s.cached.bufTm
            && s.shown.intgPd == s.cached.intgPd
            && Words(s.shown.optFlds, OPT_FLDS, s.cached.optFlds) && Words(s.shown.trgOps, TRG_OPS, s.cached.trgOps)
  {
    CachedIsOutstanding(server, es);
    NamesHaveNoComma();
    MaskWords(OPT_FLDS, Run(server, es).cached.optFlds);
    MaskWords(TRG_OPS, Run(server, es).cached.trgOps);
  }
}
