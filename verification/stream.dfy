/**
 * The subscription registry and the line-dispatch loop, as values: what
 * the session's callbacks see for a given sequence of reads.
 */
module Stream {
  import opened Wrappers
  import opened Reports

  /** A subscribed callback, known only by identity. */
  type FilterId = nat

  /** Class tag to callbacks in subscription order. */
  type Registry = map<string, seq<FilterId>>

  /** Reading a Go map: an absent tag gives the empty (nil) list. */
  function Lookup(filters: Registry, tag: string): seq<FilterId>
  {
    if tag in filters then filters[tag] else []
  }

  /** Every list in the registry was created by a subscription, so none is empty. */
  ghost predicate NoEmptyLists(filters: Registry)
  {
    forall tag :: tag in filters ==> |filters[tag]| > 0
  }

  /** In a registry built by subscriptions, a tag has subscribers exactly when it is a key. */
  lemma SubscribedIffKey(filters: Registry, tag: string)
    requires NoEmptyLists(filters)
    ensures tag in filters <==> |Lookup(filters, tag)| > 0
  {
    if tag in filters {
      assert |filters[tag]| > 0;
    }
  }

  /** The registry after Subscribe(tag, f). */
  function Register(filters: Registry, tag: string, f: FilterId): (r: Registry)
    ensures Lookup(r, tag) == Lookup(filters, tag) + [f]
    ensures forall t :: t != tag ==> Lookup(r, t) == Lookup(filters, t)
    ensures r.Keys == filters.Keys + {tag}
    ensures NoEmptyLists(filters) ==> NoEmptyLists(r)
  {
    filters[tag := Lookup(filters, tag) + [f]]
  }

  /** The registry after subscribing each of `fs` to `tag`, in order. */
  function RegisterAll(filters: Registry, tag: string, fs: seq<FilterId>): Registry
  {
    if fs == [] then filters
    else Register(RegisterAll(filters, tag, fs[..|fs| - 1]), tag, fs[|fs| - 1])
  }

  /** Callbacks subscribed one after another are listed in that order, after the earlier ones. */
  lemma {:induction false} RegisterAllOrder(filters: Registry, tag: string, fs: seq<FilterId>)
    ensures Lookup(RegisterAll(filters, tag, fs), tag) == Lookup(filters, tag) + fs
    ensures forall t :: t != tag ==> Lookup(RegisterAll(filters, tag, fs), t) == Lookup(filters, t)
  {
    if fs != [] {
      RegisterAllOrder(filters, tag, fs[..|fs| - 1]);
      assert fs[..|fs| - 1] + [fs[|fs| - 1]] == fs;
    }
  }

  /** One callback invocation: callback `filter` called with `report`. */
  datatype Call = Call(filter: FilterId, report: Report)

  /** deliverReport's invocations: each callback once, in list order, all with the same report. */
  function Deliveries(fs: seq<FilterId>, report: Report): (calls: seq<Call>)
    ensures |calls| == |fs|
    ensures forall i :: 0 <= i < |fs| ==> calls[i] == Call(fs[i], report)
  {
    if fs == [] then [] else [Call(fs[0], report)] + Deliveries(fs[1..], report)
  }

  /** Three callbacks subscribed to TPV on a fresh session are called in subscription order. */
  lemma DeliveryOrder(a: FilterId, b: FilterId, c: FilterId, report: Report)
    ensures Deliveries(Lookup(RegisterAll(map[], "TPV", [a, b, c]), "TPV"), report)
      == [Call(a, report), Call(b, report), Call(c, report)]
  {
    RegisterAllOrder(map[], "TPV", [a, b, c]);
  }

  /** What one readLine returns: a line, or an error (end of stream, closed socket, I/O failure). */
  datatype ReadResult = Line(text: Line) | ReadError

  /**
   * The effect of the dispatch loop: the callback invocations in order,
   * the lines handed to unmarshalReport in order, and the number of reads.
   */
  datatype Outcome = Outcome(trace: seq<Call>, decoded: seq<Line>, readCount: nat)

  /** One outcome followed by another. */
  function Then(first: Outcome, second: Outcome): Outcome
  {
    Outcome(first.trace + second.trace, first.decoded + second.decoded, first.readCount + second.readCount)
  }

  /**
   * One pass of the loop body for a line that was read: classify it, skip
   * it when its class has no subscribers, otherwise decode it and deliver
   * it unless decoding fails.
   */
  function LineEffect(filters: Registry, line: Line, peek: Line -> Option<string>,
                      unmarshal: (Option<ReportKind>, Line) -> bool): Outcome
  {
    var tag := GetClass(line, peek);
    var fs := Lookup(filters, tag);
    if |fs| == 0 then Outcome([], [], 1)
    else match UnmarshalReport(tag, line, unmarshal)
      case None => Outcome([], [line], 1)
      case Some(report) => Outcome(Deliveries(fs, report), [line], 1)
  }

  /** `Then` is associative. */
  lemma ThenAssociative(x: Outcome, y: Outcome, z: Outcome)
    ensures Then(Then(x, y), z) == Then(x, Then(y, z))
  {
    assert (x.trace + y.trace) + z.trace == x.trace + (y.trace + z.trace);
    assert (x.decoded + y.decoded) + z.decoded == x.decoded + (y.decoded + z.decoded);
  }

  /** One line is one read; it is decoded exactly when its class has subscribers, and delivered only then. */
  lemma LineEffectDecodes(filters: Registry, line: Line, peek: Line -> Option<string>,
                          unmarshal: (Option<ReportKind>, Line) -> bool)
    ensures var o := LineEffect(filters, line, peek, unmarshal);
      && o.readCount == 1
      && o.decoded == (if HasSubscribers(filters, line, peek) then [line] else [])
      && o.trace == (if HasSubscribers(filters, line, peek) then DeliveriesOf(filters, line, peek, unmarshal) else [])
  {
  }

  /** The dispatch loop over `input`, polled until it ends or a read fails. */
  function Run(filters: Registry, input: seq<ReadResult>, peek: Line -> Option<string>,
               unmarshal: (Option<ReportKind>, Line) -> bool): (o: Outcome)
    ensures o.readCount <= |input|
    ensures |o.decoded| <= o.readCount
    ensures o.readCount == 0 <==> input == []
    decreases |input|
  {
    if input == [] then Outcome([], [], 0)
    else if input[0].ReadError? then Outcome([], [], 1)
    else Then(LineEffect(filters, input[0].text, peek, unmarshal), Run(filters, input[1..], peek, unmarshal))
  }

  /** One unfolding of Run at position `i` of the input. */
  lemma RunAt(filters: Registry, input: seq<ReadResult>, i: nat, peek: Line -> Option<string>,
              unmarshal: (Option<ReportKind>, Line) -> bool)
    requires i < |input|
    ensures input[i].ReadError? ==> Run(filters, input[i..], peek, unmarshal) == Outcome([], [], 1)
    ensures input[i].Line? ==>
      Run(filters, input[i..], peek, unmarshal) == Then(LineEffect(filters, input[i].text, peek, unmarshal), Run(filters, input[i + 1..], peek, unmarshal))
  {
    assert input[i..][1..] == input[i + 1..];
  }

  /** Advancing the loop over one successfully read line keeps the split between done and remaining. */
  lemma RunStep(filters: Registry, input: seq<ReadResult>, i: nat, peek: Line -> Option<string>,
                unmarshal: (Option<ReportKind>, Line) -> bool, handled: Outcome)
    requires i < |input| && input[i].Line?
    ensures Then(Then(handled, LineEffect(filters, input[i].text, peek, unmarshal)), Run(filters, input[i + 1..], peek, unmarshal))
      == Then(handled, Run(filters, input[i..], peek, unmarshal))
  {
    RunAt(filters, input, i, peek, unmarshal);
    ThenAssociative(handled, LineEffect(filters, input[i].text, peek, unmarshal), Run(filters, input[i + 1..], peek, unmarshal));
  }

  /** Once every polled read is made, nothing is left to run. */
  lemma RunExhausted(filters: Registry, input: seq<ReadResult>, peek: Line -> Option<string>,
                     unmarshal: (Option<ReportKind>, Line) -> bool, handled: Outcome)
    ensures Then(handled, Run(filters, input[|input|..], peek, unmarshal)) == handled
  {
    assert input[|input|..] == [];
    assert handled.trace + [] == handled.trace;
    assert handled.decoded + [] == handled.decoded;
  }

  /** The empty outcome is a left unit of `Then`. */
  lemma ThenUnit(o: Outcome)
    ensures Then(Outcome([], [], 0), o) == o
  {
    assert [] + o.trace == o.trace;
    assert [] + o.decoded == o.decoded;
  }

  /** Concatenation of sequences is associative. */
  lemma AppendAssociative<T>(a: seq<T>, b: seq<T>, c: seq<T>)
    ensures (a + b) + c == a + (b + c)
  {
  }

  /** The reads the loop gets to make when it finds the done channel closed at poll `cancelAt`. */
  function Polled(input: seq<ReadResult>, cancelAt: nat): (p: seq<ReadResult>)
    ensures |p| <= |input|
    ensures forall i :: 0 <= i < |p| ==> p[i] == input[i]
    ensures |p| == if cancelAt < |input| then cancelAt else |input|
  {
    if cancelAt < |input| then input[..cancelAt] else input
  }

  /** A done channel already closed at the first poll stops the loop before any read. */
  lemma CancelledBeforeFirstRead(filters: Registry, input: seq<ReadResult>, peek: Line -> Option<string>,
                                 unmarshal: (Option<ReportKind>, Line) -> bool)
    ensures Run(filters, Polled(input, 0), peek, unmarshal) == Outcome([], [], 0)
  {
  }

  /** A done channel never closed while input remains lets the loop read everything. */
  lemma NeverCancelled(input: seq<ReadResult>, cancelAt: nat)
    requires |input| <= cancelAt
    ensures Polled(input, cancelAt) == input
  {
  }

  // ---- A reference description of the loop: read, filter, decode, fan out ----

  /** The lines read before the first read error. */
  function Received(input: seq<ReadResult>): (lines: seq<Line>)
    ensures |lines| <= |input|
    ensures forall i :: 0 <= i < |lines| ==> input[i] == ReadResult.Line(lines[i])
  {
    if input == [] || input[0].ReadError? then [] else [input[0].text] + Received(input[1..])
  }

  /** Whether some read fails. */
  predicate FailsReading(input: seq<ReadResult>)
  {
    exists i :: 0 <= i < |input| && input[i].ReadError?
  }

  /** Whether the class of `line` has at least one subscriber. */
  predicate HasSubscribers(filters: Registry, line: Line, peek: Line -> Option<string>)
  {
    |Lookup(filters, GetClass(line, peek))| > 0
  }

  /** The lines, in order, whose class has subscribers. */
  function Subscribed(filters: Registry, lines: seq<Line>, peek: Line -> Option<string>): (s: seq<Line>)
    ensures |s| <= |lines|
    ensures forall l :: l in s ==> l in lines && HasSubscribers(filters, l, peek)
    ensures forall l :: l in lines && HasSubscribers(filters, l, peek) ==> l in s
  {
    if lines == [] then []
    else
      var rest := Subscribed(filters, lines[1..], peek);
      if HasSubscribers(filters, lines[0], peek) then [lines[0]] + rest else rest
  }

  /** The deliveries of every line that decodes, concatenated in line order. */
  function Fanout(filters: Registry, lines: seq<Line>, peek: Line -> Option<string>,
                  unmarshal: (Option<ReportKind>, Line) -> bool): seq<Call>
  {
    if lines == [] then []
    else DeliveriesOf(filters, lines[0], peek, unmarshal) + Fanout(filters, lines[1..], peek, unmarshal)
  }

  /** The deliveries for one line: none when it does not decode. */
  function DeliveriesOf(filters: Registry, line: Line, peek: Line -> Option<string>,
                        unmarshal: (Option<ReportKind>, Line) -> bool): seq<Call>
  {
    var tag := GetClass(line, peek);
    match UnmarshalReport(tag, line, unmarshal)
    case None => []
    case Some(report) => Deliveries(Lookup(filters, tag), report)
  }

  /**
   * The loop is the pipeline: it reads up to and including the first
   * failing read, decodes exactly the lines that have subscribers, and
   * delivers the decodable ones in order.
   */
  lemma {:induction false} RunIsPipeline(filters: Registry, input: seq<ReadResult>, peek: Line -> Option<string>,
                                         unmarshal: (Option<ReportKind>, Line) -> bool)
    ensures var o := Run(filters, input, peek, unmarshal);
      var wanted := Subscribed(filters, Received(input), peek);
      && o.decoded == wanted
      && o.trace == Fanout(filters, wanted, peek, unmarshal)
      && o.readCount == |Received(input)| + (if FailsReading(input) then 1 else 0)
    decreases |input|
  {
    if input == [] {
    } else if input[0].ReadError? {
      assert FailsReading(input) by { assert input[0].ReadError?; }
    } else {
      var line, rest := input[0].text, input[1..];
      RunIsPipeline(filters, rest, peek, unmarshal);
      FailsReadingTail(input);
      var e := LineEffect(filters, line, peek, unmarshal);
      assert Run(filters, input, peek, unmarshal) == Then(e, Run(filters, rest, peek, unmarshal));
      var lines := Received(input);
      assert lines == [line] + Received(rest);
      assert lines[1..] == Received(rest);
      var wanted := Subscribed(filters, Received(rest), peek);
      if HasSubscribers(filters, line, peek) {
        assert Subscribed(filters, lines, peek) == [line] + wanted;
        assert ([line] + wanted)[1..] == wanted;
        assert Fanout(filters, [line] + wanted, peek, unmarshal)
          == DeliveriesOf(filters, line, peek, unmarshal) + Fanout(filters, wanted, peek, unmarshal);
        assert e.trace == DeliveriesOf(filters, line, peek, unmarshal);
      } else {
        assert Subscribed(filters, lines, peek) == wanted;
      }
    }
  }

  lemma FailsReadingTail(input: seq<ReadResult>)
    requires input != [] && input[0].Line?
    ensures FailsReading(input) <==> FailsReading(input[1..])
  {
    if FailsReading(input) {
      var i :| 0 <= i < |input| && input[i].ReadError?;
      assert input[1..][i - 1].ReadError?;
    }
    if FailsReading(input[1..]) {
      var i :| 0 <= i < |input[1..]| && input[1..][i].ReadError?;
      assert input[i + 1].ReadError?;
    }
  }

  /** A line whose class has no subscribers is never decoded, and nothing is delivered for it. */
  lemma UnsubscribedNeverDecoded(filters: Registry, input: seq<ReadResult>, peek: Line -> Option<string>,
                                 unmarshal: (Option<ReportKind>, Line) -> bool, line: Line)
    requires !HasSubscribers(filters, line, peek)
    ensures line !in Run(filters, input, peek, unmarshal).decoded
    ensures forall c :: c in Run(filters, input, peek, unmarshal).trace ==> c.report.line != line
  {
    RunIsPipeline(filters, input, peek, unmarshal);
    TraceSound(filters, input, peek, unmarshal);
  }

  /** A line that is not JSON gets the empty class, so it is skipped unless "" has subscribers. */
  lemma UnparseableLineSkipped(filters: Registry, line: Line, rest: seq<ReadResult>,
                               peek: Line -> Option<string>, unmarshal: (Option<ReportKind>, Line) -> bool)
    requires peek(line).None?
    requires |Lookup(filters, "")| == 0
    ensures var o := Run(filters, rest, peek, unmarshal);
      Run(filters, [ReadResult.Line(line)] + rest, peek, unmarshal) == Outcome(o.trace, o.decoded, o.readCount + 1)
  {
    assert ([ReadResult.Line(line)] + rest)[1..] == rest;
  }

  /** A line that fails to decode is dropped alone; the loop goes on with the next read. */
  lemma DecodeFailureDropsLine(filters: Registry, line: Line, rest: seq<ReadResult>,
                               peek: Line -> Option<string>, unmarshal: (Option<ReportKind>, Line) -> bool)
    requires HasSubscribers(filters, line, peek)
    requires !unmarshal(KindOf(GetClass(line, peek)), line)
    ensures var o := Run(filters, rest, peek, unmarshal);
      Run(filters, [ReadResult.Line(line)] + rest, peek, unmarshal) == Outcome(o.trace, [line] + o.decoded, o.readCount + 1)
  {
    assert ([ReadResult.Line(line)] + rest)[1..] == rest;
  }

  /** Every invocation goes to a callback subscribed to the class of a line that was read, with that line's report. */
  lemma {:induction false} TraceSound(filters: Registry, input: seq<ReadResult>, peek: Line -> Option<string>,
                                      unmarshal: (Option<ReportKind>, Line) -> bool)
    ensures forall c :: c in Run(filters, input, peek, unmarshal).trace ==>
      && c.report.line in Received(input)
      && c.filter in Lookup(filters, GetClass(c.report.line, peek))
      && c.report.kind == KindOf(GetClass(c.report.line, peek))
    decreases |input|
  {
    if input != [] && input[0].Line? {
      TraceSound(filters, input[1..], peek, unmarshal);
      var line := input[0].text;
      var tag := GetClass(line, peek);
      var fs := Lookup(filters, tag);
      if |fs| > 0 && UnmarshalReport(tag, line, unmarshal).Some? {
        var report := UnmarshalReport(tag, line, unmarshal).value;
        forall c | c in Deliveries(fs, report)
          ensures c.report == report && c.filter in fs
        {
          var i :| 0 <= i < |fs| && Deliveries(fs, report)[i] == c;
        }
      }
    }
  }

  /**
   * Reads that all succeed compose: the loop over `a` then `b` delivers
   * what `a` delivers followed by what `b` delivers.
   */
  lemma {:induction false} RunAppend(filters: Registry, a: seq<ReadResult>, b: seq<ReadResult>,
                                     peek: Line -> Option<string>, unmarshal: (Option<ReportKind>, Line) -> bool)
    requires forall i :: 0 <= i < |a| ==> a[i].Line?
    ensures var oa, ob := Run(filters, a, peek, unmarshal), Run(filters, b, peek, unmarshal);
      Run(filters, a + b, peek, unmarshal) == Outcome(oa.trace + ob.trace, oa.decoded + ob.decoded, oa.readCount + ob.readCount)
    decreases |a|
  {
    if a == [] {
      assert a + b == b;
    } else {
      var e := LineEffect(filters, a[0].text, peek, unmarshal);
      assert (a + b)[0] == a[0];
      assert (a + b)[1..] == a[1..] + b;
      assert Run(filters, a + b, peek, unmarshal) == Then(e, Run(filters, a[1..] + b, peek, unmarshal));
      RunAppend(filters, a[1..], b, peek, unmarshal);
      ThenAssociative(e, Run(filters, a[1..], peek, unmarshal), Run(filters, b, peek, unmarshal));
    }
  }

  /** The loop stops at the first failing read: nothing after it is read, decoded or delivered. */
  lemma {:induction false} ReadErrorStops(filters: Registry, a: seq<ReadResult>, b: seq<ReadResult>,
                                          peek: Line -> Option<string>, unmarshal: (Option<ReportKind>, Line) -> bool)
    requires forall i :: 0 <= i < |a| ==> a[i].Line?
    ensures var oa := Run(filters, a, peek, unmarshal);
      Run(filters, a + [ReadError] + b, peek, unmarshal) == Outcome(oa.trace, oa.decoded, oa.readCount + 1)
  {
    RunAppend(filters, a, [ReadError] + b, peek, unmarshal);
    assert a + [ReadError] + b == a + ([ReadError] + b);
  }
}
