/**
 * The gpsd client session: the subscription registry it updates in place,
 * the commands it writes to the socket, and the read loop that classifies,
 * decodes and delivers the lines the daemon sends.
 */
module Gpsd {
  import opened Wrappers
  import opened Commands
  import opened Reports
  import opened Stream

  const DefaultAddress: string := "localhost:2947"

  class Session {
    var address: string
    /** Class tag to callbacks, in subscription order. */
    var filters: Registry
    /** Every write to the socket, in order. */
    var written: seq<string>
    /** Every callback invocation, in order. */
    var trace: seq<Call>
    /** How many times unmarshalReport has been invoked. */
    var decodes: nat

    /** Every tag in the registry has a subscriber, so by SubscribedIffKey its keys are exactly the subscribed classes. */
    ghost predicate Valid()
      reads this
    {
      NoEmptyLists(filters)
    }

    /** A session for `address` whose connection has just been established. */
    constructor (address: string)
      ensures Valid()
      ensures this.address == address && filters == map[]
      ensures written == [] && trace == [] && decodes == 0
    {
      this.address := address;
      filters := map[];
      written := [];
      trace := [];
      decodes := 0;
    }

    /**
     * Dial: `connected` is whether the TCP connection and the banner read
     * succeeded; on failure there is no session.
     */
    static method Dial(address: string, connected: bool) returns (s: Option<Session>)
      ensures s.Some? <==> connected
      ensures s.Some? ==> fresh(s.value) && s.value.Valid() && s.value.address == address
      ensures s.Some? ==> s.value.filters == map[] && s.value.written == [] && s.value.trace == [] && s.value.decodes == 0
    {
      if !connected {
        return None;
      }
      var session := new Session(address);
      s := Some(session);
    }

    method SendCommand(command: string)
      modifies this
      ensures written == old(written) + [Framed(command)]
      ensures filters == old(filters) && trace == old(trace) && decodes == old(decodes) && address == old(address)
    {
      written := written + ["?" + command + ";"];
    }

    method Version()
      modifies this
      ensures written == old(written) + ["?VERSION;"]
      ensures filters == old(filters) && trace == old(trace) && decodes == old(decodes) && address == old(address)
    {
      assert Framed(VersionCommand) == "?VERSION;";
      SendCommand(VersionCommand);
    }

    method Poll()
      modifies this
      ensures written == old(written) + ["?POLL;"]
      ensures filters == old(filters) && trace == old(trace) && decodes == old(decodes) && address == old(address)
    {
      assert Framed(PollCommand) == "?POLL;";
      SendCommand(PollCommand);
    }

    /** Sends WATCH, with the option map when exactly one is given; `order` is the map iteration order taken. */
    method Watch(watchObject: seq<map<string, bool>>) returns (ghost order: seq<string>)
      modifies this
      ensures |watchObject| == 1 ==> IsEnumeration(order, watchObject[0].Keys)
      ensures written == old(written) + [Framed(WatchText(watchObject, order))]
      ensures |watchObject| != 1 ==> written == old(written) + ["?WATCH;"]
      ensures filters == old(filters) && trace == old(trace) && decodes == old(decodes) && address == old(address)
    {
      var command;
      command, order := FormatWatch(watchObject);
      if |watchObject| != 1 {
        WatchWithoutObject(watchObject, order);
      }
      SendCommand(command);
    }

    /** Appends `f` to the callbacks of `tag`, creating the list when the tag is new. */
    method Subscribe(tag: string, f: FilterId)
      requires Valid()
      modifies this
      ensures Valid()
      ensures filters == Register(old(filters), tag, f)
      ensures Lookup(filters, tag) == Lookup(old(filters), tag) + [f]
      ensures forall t :: t != tag ==> Lookup(filters, t) == Lookup(old(filters), t)
      ensures written == old(written) && trace == old(trace) && decodes == old(decodes) && address == old(address)
    {
      filters := filters[tag := Lookup(filters, tag) + [f]];
    }

    /** Calls every callback of `tag`, in subscription order, with `report`. */
    method DeliverReport(tag: string, report: Report)
      modifies this
      ensures trace == old(trace) + Deliveries(Lookup(filters, tag), report)
      ensures filters == old(filters) && written == old(written) && decodes == old(decodes) && address == old(address)
    {
      var fs := Lookup(filters, tag);
      var i := 0;
      while i < |fs|
        invariant 0 <= i <= |fs|
        invariant trace == old(trace) + Deliveries(fs[..i], report)
        invariant filters == old(filters) && written == old(written) && decodes == old(decodes) && address == old(address)
      {
        trace := trace + [Call(fs[i], report)];
        i := i + 1;
      }
      assert fs[..i] == fs;
    }

    /**
     * The body of the read loop for a line that was read: classify it, skip
     * it when its class has no subscribers, otherwise decode it and deliver
     * it unless decoding fails.
     */
    method HandleLine(line: Line, peek: Line -> Option<string>, unmarshal: (Option<ReportKind>, Line) -> bool)
      modifies this
      ensures var step := LineEffect(filters, line, peek, unmarshal);
        trace == old(trace) + step.trace && decodes == old(decodes) + |step.decoded|
      ensures filters == old(filters) && written == old(written) && address == old(address)
    {
      var tag := GetClass(line, peek);
      if |Lookup(filters, tag)| == 0 {
        return;
      }
      decodes := decodes + 1;
      var report := UnmarshalReport(tag, line, unmarshal);
      if report.None? {
        return;
      }
      DeliverReport(tag, report.value);
    }

    /**
     * The read loop, over the results of successive reads. Before each read
     * it polls the done channel, which it finds closed from poll `cancelAt`
     * on; it stops there, at the first failing read, or when the input ends.
     * `readCount` is the number of reads it made.
     */
    method WatchLoop(input: seq<ReadResult>, cancelAt: nat, peek: Line -> Option<string>,
                     unmarshal: (Option<ReportKind>, Line) -> bool) returns (readCount: nat)
      modifies this
      ensures var o := Run(filters, Polled(input, cancelAt), peek, unmarshal);
        && readCount == o.readCount
        && trace == old(trace) + o.trace
        && decodes == old(decodes) + |o.decoded|
      ensures filters == old(filters) && written == old(written) && address == old(address)
    {
      ghost var registry, trace0, decodes0 := filters, trace, decodes;
      ghost var polled := Polled(input, cancelAt);
      ghost var whole := Run(registry, polled, peek, unmarshal);
      ghost var handled := Outcome([], [], 0);
      assert polled[0..] == polled;
      ThenUnit(whole);
      readCount := 0;
      while readCount < |input|
        invariant readCount <= |polled|
        invariant filters == registry && written == old(written) && address == old(address)
        invariant Then(handled, Run(registry, polled[readCount..], peek, unmarshal)) == whole
        invariant trace == trace0 + handled.trace
        invariant decodes == decodes0 + |handled.decoded|
        invariant readCount == handled.readCount
      {
        if readCount >= cancelAt {
          RunExhausted(registry, polled, peek, unmarshal, handled);
          return;
        }
        var r := input[readCount];
        assert polled[readCount] == r;
        readCount := readCount + 1;
        if r.ReadError? {
          RunAt(registry, polled, readCount - 1, peek, unmarshal);
          handled := Then(handled, Outcome([], [], 1));
          return;
        }
        RunStep(registry, polled, readCount - 1, peek, unmarshal, handled);
        ghost var step := LineEffect(registry, r.text, peek, unmarshal);
        AppendAssociative(trace0, handled.trace, step.trace);
        handled := Then(handled, step);
        HandleLine(r.text, peek, unmarshal);
      }
      RunExhausted(registry, polled, peek, unmarshal, handled);
    }
  }
}
