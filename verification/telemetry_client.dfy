/** `TelemetryClient`: the processor chain that decides whether a tracked item
    reaches the channel, and the calls that feed it. `EnvelopeFactory`,
    `Contracts.telemetryTypeToBaseType`, `Date.toISOString` and the sampling
    processor are parameters (`Collaborators`); the channel is the log of
    envelopes handed to `Channel.send` and of `Channel.triggerSend` calls. */
module TelemetryClient {

  import opened Wrappers

  /** A `Date`. */
  type Instant(==, !new)
  /** Everything of a telemetry item the envelope factory reads besides the
      fields the client itself looks at. */
  type Payload(==, !new)
  /** A value of the `contextObjects` bag. */
  type ContextValue(==, !new)
  /** Everything of an envelope besides its time. */
  type EnvelopeData(==, !new)
  /** A flush callback. */
  type Callback(==, !new)

  /** `Contracts.TelemetryType`: the kinds the client's helpers pass, and any
      other value a caller may hand to `track`. */
  datatype TelemetryType = Trace | Metric | Exception | Event | Request | Dependency | Other(code: int)

  /** The `exception` field of a telemetry item: falsy, an `Error`, some
      other truthy value represented by what its `toString()` returns, or a
      truthy value that is not an `Error` and cannot be converted (it has no
      `toString`, or it throws). */
  datatype ExceptionValue = Falsy | Error(message: string) | NotError(text: string) | Unprintable

  type Bag = map<string, ContextValue>

  datatype Telemetry = Telemetry(
    time: Option<Instant>,
    contextObjects: Option<Bag>,
    exception: ExceptionValue,
    payload: Payload)

  datatype Envelope = Envelope(time: string, data: EnvelopeData)

  /** How a call of a processor ended: returning exactly `false`, returning
      anything else, or throwing. */
  datatype Outcome = ReturnedFalse | ReturnedOther | Threw

  /** A call of a processor: how it ended, and the envelope and the context
      bag as it left them. Processors share both objects and may change them
      in place, also before throwing. */
  datatype Step = Step(outcome: Outcome, envelope: Envelope, bag: Bag)

  type Processor = (Envelope, Bag) -> Step

  /** The callees of `track` that are not part of this model. `baseType` is
      `telemetryTypeToBaseType`, with "" for a falsy result; `createEnvelope`
      closes over the client's common properties, context and config;
      `toIsoString` is `None` for a `Date` it throws on (an invalid one). */
  datatype Collaborators = Collaborators(
    baseType: TelemetryType -> string,
    createEnvelope: (Telemetry, TelemetryType) -> Envelope,
    toIsoString: Instant -> Option<string>,
    sample: Envelope -> bool)

  /** `Channel.triggerSend(isAppCrashing, callback)`. */
  datatype FlushCall = FlushCall(isAppCrashing: bool, callback: Option<Callback>)

  /** The client: its registered processors (a registered value may be null)
      and what it has handed to its channel. */
  datatype Client = Client(
    processors: seq<Option<Processor>>,
    sent: seq<Envelope>,
    flushes: seq<FlushCall>)

  /** The verdict of the chain, and the envelope and bag it leaves. */
  datatype ChainResult = ChainResult(accepted: bool, envelope: Envelope, bag: Bag)

  /** The processor chain, as a reference: null entries are skipped, the first
      processor returning `false` rejects the item and ends the chain, and a
      processor that throws counts as one that accepts. Each processor sees the
      envelope and the bag as the previous ones left them. */
  function Chain(procs: seq<Option<Processor>>, e: Envelope, ctx: Bag): ChainResult {
    if procs == [] then ChainResult(true, e, ctx)
    else match procs[0]
      case None => Chain(procs[1..], e, ctx)
      case Some(p) =>
        var s := p(e, ctx);
        if s.outcome == ReturnedFalse then ChainResult(false, s.envelope, s.bag)
        else Chain(procs[1..], s.envelope, s.bag)
  }

  /** `runTelemetryProcessors(envelope, contextObjects)`: a missing bag is
      replaced by an empty one. */
  method RunTelemetryProcessors(procs: seq<Option<Processor>>, envelope: Envelope, contextObjects: Option<Bag>)
    returns (accepted: bool, e: Envelope, bag: Bag)
    ensures ChainResult(accepted, e, bag) == Chain(procs, envelope, contextObjects.GetOr(map[]))
    ensures procs == [] ==> accepted && e == envelope
  {
    accepted := true;
    e := envelope;
    bag := contextObjects.GetOr(map[]);
    if |procs| == 0 {
      return;
    }
    var i := 0;
    while i < |procs|
      invariant 0 <= i <= |procs|
      invariant Chain(procs, envelope, contextObjects.GetOr(map[])) == Chain(procs[i..], e, bag)
    {
      assert procs[i..][1..] == procs[i + 1..];
      match procs[i] {
        case None =>
        case Some(processor) =>
          var step := processor(e, bag);
          e, bag := step.envelope, step.bag;
          if step.outcome == ReturnedFalse {
            accepted := false;
            return;
          }
      }
      i := i + 1;
    }
  }

  /** The envelope built for a valid item, before the processors: the item's
      time, when it has one, replaces the factory's. `None` when
      `toISOString` throws, which makes `track` throw before any processor
      runs. */
  function Prepared(col: Collaborators, t: Telemetry, kind: TelemetryType): (r: Option<Envelope>)
    ensures r.None? <==> t.time.Some? && col.toIsoString(t.time.value).None?
    ensures r.Some? ==> r.value.data == col.createEnvelope(t, kind).data
    ensures t.time.None? ==> r == Some(col.createEnvelope(t, kind))
    ensures t.time.Some? && r.Some? ==> Some(r.value.time) == col.toIsoString(t.time.value)
  {
    var e := col.createEnvelope(t, kind);
    if t.time.None? then Some(e)
    else match col.toIsoString(t.time.value)
      case None => None
      case Some(iso) => Some(e.(time := iso))
  }

  /** `track` accepts an item only when there is one and its kind has a base
      type. */
  predicate Trackable(col: Collaborators, telemetry: Option<Telemetry>, kind: TelemetryType) {
    telemetry.Some? && col.baseType(kind) != ""
  }

  /** What the chain decides for a trackable item; `None` when preparing the
      envelope throws. */
  function Decision(c: Client, col: Collaborators, t: Telemetry, kind: TelemetryType): Option<ChainResult> {
    match Prepared(col, t, kind)
    case None => None
    case Some(e) => Some(Chain(c.processors, e, t.contextObjects.GetOr(map[])))
  }

  /** The caller's item after the processors have run on it: when it carries
      its own bag, that is the object the processors were given, so their
      changes show in it; a missing bag is replaced by a fresh object the
      caller never sees. */
  function AfterChain(c: Client, col: Collaborators, t: Telemetry, kind: TelemetryType): (r: Telemetry)
    ensures r.time == t.time && r.exception == t.exception && r.payload == t.payload
    ensures r.contextObjects.Some? <==> t.contextObjects.Some?
    ensures t.contextObjects.Some? && Decision(c, col, t, kind).Some? ==>
      r.contextObjects.value == Decision(c, col, t, kind).value.bag
    ensures t.contextObjects.None? || Decision(c, col, t, kind).None? ==> r == t
  {
    match Decision(c, col, t, kind)
    case Some(d) => if t.contextObjects.Some? then t.(contextObjects := Some(d.bag)) else t
    case None => t
  }

  /** `track(telemetry, telemetryType)`: an item that is not trackable changes
      nothing (the warning is not modelled); an item whose time cannot be
      rendered makes `track` throw (`raised`) with nothing sent; otherwise at
      most one envelope is appended to the channel, and exactly when the chain
      accepts and the sampler, consulted on the envelope the chain leaves,
      keeps it. The sampler is consulted only when the chain accepts. `after`
      is the caller's item as it stands once `track` returns. */
  method Track(c: Client, col: Collaborators, telemetry: Option<Telemetry>, kind: TelemetryType)
    returns (next: Client, samplerConsulted: bool, raised: bool, after: Option<Telemetry>)
    ensures !Trackable(col, telemetry, kind) ==> after == telemetry
    ensures Trackable(col, telemetry, kind) ==> after == Some(AfterChain(c, col, telemetry.value, kind))
    ensures raised <==> Trackable(col, telemetry, kind) && Decision(c, col, telemetry.value, kind).None?
    ensures samplerConsulted <==>
      Trackable(col, telemetry, kind)
      && Decision(c, col, telemetry.value, kind).Some?
      && Decision(c, col, telemetry.value, kind).value.accepted
    ensures next.processors == c.processors && next.flushes == c.flushes
    ensures !Trackable(col, telemetry, kind) || raised ==> next == c
    ensures |c.sent| <= |next.sent| <= |c.sent| + 1 && next.sent[..|c.sent|] == c.sent
    ensures |next.sent| == |c.sent| + 1 <==>
      Trackable(col, telemetry, kind)
      && Decision(c, col, telemetry.value, kind).Some?
      && Decision(c, col, telemetry.value, kind).value.accepted
      && col.sample(Decision(c, col, telemetry.value, kind).value.envelope)
    ensures |next.sent| == |c.sent| + 1 ==>
      next.sent[|c.sent|] == Decision(c, col, telemetry.value, kind).value.envelope
  {
    next := c;
    samplerConsulted := false;
    raised := false;
    after := telemetry;
    if telemetry.Some? && col.baseType(kind) != "" {
      var t := telemetry.value;
      var envelope := col.createEnvelope(t, kind);
      if t.time.Some? {
        var iso := col.toIsoString(t.time.value);
        if iso.None? {
          raised := true;
          return;
        }
        envelope := envelope.(time := iso.value);
      }
      var accepted, e, bag := RunTelemetryProcessors(c.processors, envelope, t.contextObjects);
      if t.contextObjects.Some? {
        after := Some(t.(contextObjects := Some(bag)));
      }
      samplerConsulted := accepted;
      accepted := accepted && col.sample(e);
      if accepted {
        next := c.(sent := c.sent + [e]);
      }
    }
  }

  /** `addTelemetryProcessor(p)`: appended after the processors already
      registered; a null value is stored too. */
  function AddTelemetryProcessor(c: Client, p: Option<Processor>): (next: Client)
    ensures |next.processors| == |c.processors| + 1
    ensures next.processors[..|c.processors|] == c.processors && next.processors[|c.processors|] == p
    ensures next.sent == c.sent && next.flushes == c.flushes
  {
    c.(processors := c.processors + [p])
  }

  /** `clearTelemetryProcessors()`. */
  function ClearTelemetryProcessors(c: Client): (next: Client)
    ensures next.processors == [] && next.sent == c.sent && next.flushes == c.flushes
  {
    c.(processors := [])
  }

  /** Without processors every trackable item whose envelope can be prepared
      is decided by the sampler alone, on the prepared envelope. */
  lemma ClearedChainDefersToSampler(c: Client, col: Collaborators, t: Telemetry, kind: TelemetryType)
    ensures var d := Decision(ClearTelemetryProcessors(c), col, t, kind);
      && (d.Some? <==> Prepared(col, t, kind).Some?)
      && (d.Some? ==> d.value.accepted && d.value.envelope == Prepared(col, t, kind).value)
  {
  }

  /** Running a chain made of two parts runs the first part, and the second
      only when the first accepts, on the envelope and bag the first leaves. */
  lemma {:induction false} ChainAppend(a: seq<Option<Processor>>, b: seq<Option<Processor>>, e: Envelope, ctx: Bag)
    ensures var r := Chain(a, e, ctx);
      Chain(a + b, e, ctx) == if r.accepted then Chain(b, r.envelope, r.bag) else r
  {
    if a == [] {
      assert a + b == b;
    } else {
      assert (a + b)[0] == a[0];
      assert (a + b)[1..] == a[1..] + b;
      match a[0]
      case None => ChainAppend(a[1..], b, e, ctx);
      case Some(p) => ChainAppend(a[1..], b, p(e, ctx).envelope, p(e, ctx).bag);
    }
  }

  /** The first processor to return `false` decides the item: whatever
      follows it in the chain is never reached. */
  lemma FirstRejectionDecides(procs: seq<Option<Processor>>, e: Envelope, ctx: Bag, i: nat)
    requires i < |procs| && procs[i].Some?
    requires Chain(procs[..i], e, ctx).accepted
    requires procs[i].value(Chain(procs[..i], e, ctx).envelope, Chain(procs[..i], e, ctx).bag).outcome
      == ReturnedFalse
    ensures var pre := Chain(procs[..i], e, ctx);
      var s := procs[i].value(pre.envelope, pre.bag);
      Chain(procs, e, ctx) == ChainResult(false, s.envelope, s.bag)
  {
    assert procs == procs[..i] + procs[i..];
    ChainAppend(procs[..i], procs[i..], e, ctx);
  }

  /** A processor added later can neither rescue an item an earlier one
      rejected nor see it; an item the earlier processors accept is decided by
      the new one, which sees the envelope and the bag as they left them. */
  lemma AddedProcessorRunsLast(c: Client, p: Processor, e: Envelope, ctx: Bag)
    ensures var before := Chain(c.processors, e, ctx);
      var after := Chain(AddTelemetryProcessor(c, Some(p)).processors, e, ctx);
      && (!before.accepted ==> after == before)
      && (before.accepted ==>
            var s := p(before.envelope, before.bag);
            after == ChainResult(s.outcome != ReturnedFalse, s.envelope, s.bag))
  {
    ChainAppend(c.processors, [Some(p)], e, ctx);
    var before := Chain(c.processors, e, ctx);
    if before.accepted {
      assert [Some(p)][1..] == [];
    }
  }

  /** A processor with every throw replaced by a normal return. */
  function Tame(p: Option<Processor>): Option<Processor> {
    match p
    case None => None
    case Some(f) => Some((e, ctx) => var s := f(e, ctx);
      if s.outcome == Threw then Step(ReturnedOther, s.envelope, s.bag) else s)
  }

  function TameAll(procs: seq<Option<Processor>>): (r: seq<Option<Processor>>)
    ensures |r| == |procs|
    ensures forall i :: 0 <= i < |procs| ==> r[i] == Tame(procs[i])
  {
    seq(|procs|, i requires 0 <= i < |procs| => Tame(procs[i]))
  }

  /** A processor that throws is treated exactly like one that accepts. */
  lemma {:induction false} ThrowingCountsAsAccepting(procs: seq<Option<Processor>>, e: Envelope, ctx: Bag)
    ensures Chain(TameAll(procs), e, ctx) == Chain(procs, e, ctx)
  {
    if procs != [] {
      assert TameAll(procs)[1..] == TameAll(procs[1..]);
      match procs[0]
      case None => ThrowingCountsAsAccepting(procs[1..], e, ctx);
      case Some(p) => ThrowingCountsAsAccepting(procs[1..], p(e, ctx).envelope, p(e, ctx).bag);
    }
  }

  /** The registered processors without the null entries. */
  function Present(procs: seq<Option<Processor>>): (r: seq<Option<Processor>>)
    ensures forall i :: 0 <= i < |r| ==> r[i].Some?
    ensures |r| <= |procs|
  {
    if procs == [] then []
    else if procs[0].None? then Present(procs[1..])
    else [procs[0]] + Present(procs[1..])
  }

  /** Null entries are skipped. */
  lemma {:induction false} NullProcessorsSkipped(procs: seq<Option<Processor>>, e: Envelope, ctx: Bag)
    ensures Chain(Present(procs), e, ctx) == Chain(procs, e, ctx)
  {
    if procs != [] {
      match procs[0]
      case None => NullProcessorsSkipped(procs[1..], e, ctx);
      case Some(p) =>
        var rest := Present(procs[1..]);
        assert ([procs[0]] + rest)[1..] == rest;
        NullProcessorsSkipped(procs[1..], p(e, ctx).envelope, p(e, ctx).bag);
    }
  }

  /** A processor that changes neither the envelope nor the bag. */
  ghost predicate ReadOnly(p: Option<Processor>) {
    p.Some? ==> forall e, ctx :: p.value(e, ctx).envelope == e && p.value(e, ctx).bag == ctx
  }

  /** With processors that only look at the envelope and the bag, the chain
      accepts an item exactly when none of them returns `false` for it, and
      both stay as they were. */
  lemma {:induction false} ReadOnlyChain(procs: seq<Option<Processor>>, e: Envelope, ctx: Bag)
    requires forall i :: 0 <= i < |procs| ==> ReadOnly(procs[i])
    ensures Chain(procs, e, ctx).envelope == e && Chain(procs, e, ctx).bag == ctx
    ensures Chain(procs, e, ctx).accepted <==>
      forall i :: 0 <= i < |procs| && procs[i].Some? ==> procs[i].value(e, ctx).outcome != ReturnedFalse
  {
    if procs != [] {
      ReadOnlyChain(procs[1..], e, ctx);
      assert forall i :: 1 <= i < |procs| ==> procs[i] == procs[1..][i - 1];
    }
  }

  /** Processors that only look leave the caller's item as it was. */
  lemma ReadOnlyLeavesItem(c: Client, col: Collaborators, t: Telemetry, kind: TelemetryType)
    requires forall i :: 0 <= i < |c.processors| ==> ReadOnly(c.processors[i])
    ensures AfterChain(c, col, t, kind) == t
  {
    var e := Prepared(col, t, kind);
    if e.Some? {
      ReadOnlyChain(c.processors, e.value, t.contextObjects.GetOr(map[]));
    }
  }

  /** The `trackException` rule: a truthy exception that is not an `Error` is
      replaced by `new Error(exception.toString())`; `None` when that
      conversion throws. */
  function WrapException(x: ExceptionValue): (r: Option<ExceptionValue>)
    ensures r.None? <==> x.Unprintable?
    ensures r.Some? ==> !r.value.NotError? && !r.value.Unprintable?
    ensures x.NotError? ==> r == Some(Error(x.text))
    ensures x.Falsy? || x.Error? ==> r == Some(x)
  {
    match x
    case NotError(text) => Some(Error(text))
    case Unprintable => None
    case _ => Some(x)
  }

  lemma WrapExceptionIdempotent(x: ExceptionValue)
    requires WrapException(x).Some?
    ensures WrapException(WrapException(x).value) == WrapException(x)
  {
  }

  /** `trackException(telemetry)`: the caller's item has its exception
      wrapped in place and is then tracked as an exception; when the wrapping
      throws, the item is left as it was and `track` is not reached. `item` is
      the caller's item as it stands afterwards, also when `track` throws. */
  method TrackException(c: Client, col: Collaborators, telemetry: Option<Telemetry>)
    returns (next: Client, item: Option<Telemetry>, raised: bool)
    ensures telemetry.None? ==> item.None? && next == c && !raised
    ensures telemetry.Some? && WrapException(telemetry.value.exception).None? ==>
      raised && next == c && item == telemetry
    ensures telemetry.Some? && WrapException(telemetry.value.exception).Some? ==>
      var t := telemetry.value.(exception := WrapException(telemetry.value.exception).value);
      && next.processors == c.processors && next.flushes == c.flushes
      && |c.sent| <= |next.sent| <= |c.sent| + 1
      && next.sent[..|c.sent|] == c.sent
      && (col.baseType(Exception) == "" ==> item == Some(t))
      && (col.baseType(Exception) != "" ==> item == Some(AfterChain(c, col, t, Exception)))
      && (raised <==> col.baseType(Exception) != "" && Decision(c, col, t, Exception).None?)
      && (raised ==> next == c)
      && (|next.sent| == |c.sent| + 1 <==>
            col.baseType(Exception) != ""
            && Decision(c, col, t, Exception).Some?
            && Decision(c, col, t, Exception).value.accepted
            && col.sample(Decision(c, col, t, Exception).value.envelope))
      && (|next.sent| == |c.sent| + 1 ==> next.sent[|c.sent|] == Decision(c, col, t, Exception).value.envelope)
  {
    next, item, raised := c, telemetry, false;
    if telemetry.Some? {
      var x := telemetry.value.exception;
      if x.Unprintable? {
        raised := true;
        return;
      }
      if x.NotError? {
        item := Some(telemetry.value.(exception := Error(x.text)));
      }
    }
    var consulted;
    next, consulted, raised, item := Track(c, col, item, Exception);
  }

  /** `FlushOptions`; `isAppCrashing` may be left undefined (`None`). */
  datatype FlushOptions = FlushOptions(isAppCrashing: Option<bool>, callback: Option<Callback>)

  /** `flush(options)`: one `triggerSend` call, reporting a crash only when
      the options say `isAppCrashing: true`, and passing their callback. */
  function Flush(c: Client, options: Option<FlushOptions>): (next: Client)
    ensures next.processors == c.processors && next.sent == c.sent
    ensures |next.flushes| == |c.flushes| + 1 && next.flushes[..|c.flushes|] == c.flushes
    ensures var call := next.flushes[|c.flushes|];
      && (call.isAppCrashing <==> options.Some? && options.value.isAppCrashing == Some(true))
      && call.callback == (if options.Some? then options.value.callback else None)
  {
    var call := match options
      case None => FlushCall(false, None)
      case Some(o) => FlushCall(o.isAppCrashing == Some(true), o.callback);
    c.(flushes := c.flushes + [call])
  }
}
