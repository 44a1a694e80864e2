# go-gpsd session, modelled in Dafny

This project models the non-I/O core of the go-gpsd client (`gpsd.go`). The client is a streaming client for the gpsd daemon's JSON service. It has three parts:

- **Subscription registry.** `Session.filters` maps a report class tag (`"TPV"`, `"SKY"`, ...) to the callbacks subscribed to it, in subscription order. `Subscribe` appends to that list in place. `deliverReport` calls the callbacks in order. `Dial` starts the registry empty.
- **Command formatting.** Every command goes out as `?NAME;`. `Watch` with exactly one option map sends `?WATCH={"k":v,...};`, where the member order follows Go's unordered map iteration. `Version` and `Poll` send fixed names.
- **The read loop `watch()`.** Before each read it polls the done channel, and it stops on a read error. It classifies each line by its class field and skips lines whose class has no subscribers without decoding them. It decodes the other lines into a typed report picked from eight class tags, drops lines that fail to decode, and delivers the rest.

Modules:

- `Wrappers` holds `Option`.
- `Commands` covers command framing, the WATCH option text, and the option-map walk `FormatWatch`, written as a loop.
- `Reports` covers the class-tag dispatch of `unmarshalReport` and `getClass`.
- `Stream` describes the loop as values. `Run` is a specification function for the loop. `Subscribed`, `Fanout` and `Received` give an independent pipeline description of it. `RunIsPipeline` proves that the two agree.
- `Fprintf` describes what the socket write does with a `%` in a command (see Findings).
- `Gpsd` holds the class `Session`. Its fields are the registry, the writes made to the socket, the trace of callback invocations and the count of decode invocations. Its methods update these fields in place. `WatchLoop` is the imperative read loop, proved equal to `Stream.Run`.

Abstractions:

- A callback is an opaque id (`FilterId`). Calling it appends `Call(id, report)` to the session's trace.
- JSON decoding is a pair of function parameters.
  - `peek(line)` is the class-field decode inside `getClass`. `None` means the line is not JSON.
  - `unmarshal(kind, line)` says whether `json.Unmarshal` accepts the line for the chosen target. `kind` is `None` for the untyped target.
  - A decoded report is identified by its target kind and the line it came from.
- A read is `Line(text)` or `ReadError`. The loop runs over a finite sequence of reads, and the end of that sequence stands in for a read that would block forever.
- Closing the done channel is concurrent with the loop. It is the parameter `cancelAt`, the first poll at which the loop sees the channel closed.
- Whether `Dial`'s TCP connection and banner read succeed is the parameter `connected`.
- Go map iteration order is the ghost out-parameter `order` of `FormatWatch` and `Watch`. It is chosen with `:|` and proved to list every key exactly once.

Two behaviours of the code worth noting:

- `gpsd.go` has no operation that subscribes a callback to every class and none that removes a subscription, so the model has neither.
- A class tag outside the eight known ones is still decoded (gpsd.go:209-228): `r` stays a nil interface and `json.Unmarshal` fills in an untyped value, which is delivered if the line decodes. The model decodes such a line with target `None`.

## Model

| member | source | states |
|---|---|---|
| Commands.Framed | gpsd.go:140-142 | the written command is `?`, then the command, then `;` |
| Commands.FramedRoundTrip | gpsd.go:140-142 | the daemon-side reading `Unframed` recovers every framed command |
| Commands.UnframedRoundTrip | gpsd.go:140-142 | every line `Unframed` accepts is the framing of the command it yields |
| Commands.EntryInjective | gpsd.go:132 | two `"key":value` members are equal only when their keys and values are equal |
| Commands.Entries | gpsd.go:130-133 | the i-th member is `"k":v` for the i-th key of the iteration order, one member per key |
| Commands.EnumerationSize | gpsd.go:131 | a map iteration lists as many keys as the map has |
| Commands.FormatWatch | gpsd.go:127-137 | the command built is `WATCH`, with `={members}` exactly when one map is given; the iteration order covers every key once |
| Commands.WatchWithoutObject | gpsd.go:128-136 | zero maps or more than one map send exactly `?WATCH;` |
| Commands.WatchEmptyObject | gpsd.go:129-136 | an empty map sends `?WATCH={};` |
| Commands.WatchObjectText | gpsd.go:129-136 | one map sends `?WATCH={`, the members joined by commas, then `};` |
| Commands.WatchObjectMembers | gpsd.go:130-134 | one member for every option, carrying its value, no other members, none repeated |
| Commands.WatchObjectSplits | gpsd.go:134 | when no option name contains a comma, splitting the payload at commas gives back the members in order |
| Commands.StreamingWatchCommand | gpsd.go:87 | `{"enable":true,"json":true}` sends one of its two member orders and nothing else |
| Commands.StopWatchCommand | gpsd.go:68 | `{"enable":false}` sends `?WATCH={"enable":false};` |
| Reports.KindOf | gpsd.go:209-227 | a tag gets a typed report kind only if it is that kind's tag; every other tag gets none |
| Reports.KindOfTag | gpsd.go:210-226 | each of the eight tags dispatches to its own kind |
| Reports.TagInjective | gpsd.go:210-226 | the eight kinds have distinct tags |
| Reports.UntypedClasses | gpsd.go:210-227 | `DEVICE`, the empty class and lower-case `tpv` get no typed report |
| Reports.GetClass | gpsd.go:169-176 | a line that is not JSON has class `""`; otherwise its class is the decoded class field |
| Reports.UnmarshalReport | gpsd.go:209-229 | decoding succeeds exactly when the JSON decode into the dispatched target succeeds; the report keeps the line and has the kind of the tag, or is untyped when no kind has that tag |
| Stream.Register | gpsd.go:144-146 | the tag's list gains the callback at its end (a new list when the tag is absent); every other tag's list and no key other than the tag changes; no list is ever empty |
| Stream.RegisterAllOrder | gpsd.go:144-146 | callbacks subscribed one after another follow the earlier ones, in subscription order |
| Stream.Deliveries | gpsd.go:148-152 | one call per subscribed callback, in list order, all with the same report |
| Stream.DeliveryOrder | gpsd.go:144-152 | three callbacks subscribed to TPV on a fresh registry are called in subscription order |
| Stream.LineEffectDecodes | gpsd.go:192-205 | one line is one read; it is decoded exactly when its class has subscribers, and only then delivered |
| Stream.Run | gpsd.go:178-207 | the loop reads at most the input and stops at once only on empty input; it decodes at most once per read |
| Stream.Polled | gpsd.go:182-186 | the reads made before the done channel is seen closed are a prefix of the input of length min(cancelAt, input length) |
| Stream.CancelledBeforeFirstRead | gpsd.go:181-186 | a done channel closed before the first poll means no read, no decode and no delivery |
| Stream.NeverCancelled | gpsd.go:181-186 | a done channel never seen closed lets the loop reach every read |
| Stream.RunIsPipeline | gpsd.go:178-207 | the loop reads up to and including the first failing read, decodes exactly the received lines that have subscribers, in order, and delivers the decodable ones' reports in order |
| Stream.UnsubscribedNeverDecoded | gpsd.go:193-197 | a line whose class has no subscribers is never decoded and no callback receives it |
| Stream.UnparseableLineSkipped | gpsd.go:169-176 | a non-JSON line counts as a read and nothing else when the list of `""` is empty |
| Stream.SubscribedIffKey | gpsd.go:144-146 | in a registry built by subscriptions, a tag is a key exactly when its list is non-empty |
| Stream.DecodeFailureDropsLine | gpsd.go:199-203 | a line that fails to decode is decoded once, delivers nothing, and the loop goes on |
| Stream.TraceSound | gpsd.go:195-205 | every call goes to a callback subscribed to the class of a received line, with a report of that line and the kind of its class |
| Stream.RunAppend | gpsd.go:181-206 | error-free reads compose: the loop over a then b delivers what a delivers, then what b delivers |
| Stream.ReadErrorStops | gpsd.go:187-190 | nothing after the first failing read is read, decoded or delivered |
| Fprintf.FormatNoOperands | gpsd.go:141 | Go's formatting of a format with no operands, copying text, turning `%%` into `%` and other verbs into missing-operand markers |
| Fprintf.FormatVerbatim | gpsd.go:141 | a format without `%` is covered and written unchanged, whatever other characters it holds |
| Fprintf.TrailingPercent | gpsd.go:141 | a `%` at the end of the format gives `%!(NOVERB)` |
| Fprintf.TrailingDotIsVerb | gpsd.go:141 | a `.` with nothing after it is the verb: `%.` gives `%!.(MISSING)` |
| Fprintf.OverlongWidthNoVerb | gpsd.go:141 | a width above Go's number-scan limit leaves the directive without a verb and ends the output |
| Fprintf.SentAsWritten | gpsd.go:140-142 | a command without `%` reaches the socket exactly framed |
| Fprintf.NoPercentSentFramed | gpsd.go:140-142 | every command without `%` is covered by the model and reaches the socket exactly framed |
| Fprintf.QuoteAfterPercentMangled | gpsd.go:132-141 | a command with `%"` and no other `%` reaches the socket with `%!"(MISSING)` in its place, ten characters longer than framed |
| Fprintf.PercentInOptionMangled | gpsd.go:132-141 | the option map `{"%":true}` sends `?WATCH={"%!"(MISSING):true};` |
| Gpsd.Session.constructor | gpsd.go:43-49 | a new session has the address and an empty registry, and nothing written or delivered |
| Gpsd.Session.Dial | gpsd.go:42-52 | a session exists exactly when the connection succeeds, and then its registry is empty |
| Gpsd.Session.SendCommand | gpsd.go:140-142 | one more write, the framed command; nothing else changes |
| Gpsd.Session.Version | gpsd.go:102-104 | writes `?VERSION;`; nothing else changes |
| Gpsd.Session.Poll | gpsd.go:114-116 | writes `?POLL;`; nothing else changes |
| Gpsd.Session.Watch | gpsd.go:127-137 | writes the framed WATCH command for one iteration order of the map, `?WATCH;` without exactly one map; nothing else changes |
| Gpsd.Session.Subscribe | gpsd.go:144-146 | the registry becomes `Register` of the old one; the registry stays free of empty lists; nothing else changes |
| Gpsd.Session.DeliverReport | gpsd.go:148-152 | the trace grows by exactly the deliveries to the tag's callbacks, in order; nothing else changes |
| Gpsd.Session.HandleLine | gpsd.go:192-205 | the trace and decode count grow by one line's effect; the registry and writes are unchanged |
| Gpsd.Session.WatchLoop | gpsd.go:178-207 | the reads made, the calls made and the decodes made are those of `Run` over the reads before cancellation |

## Left out

- Dialing, the two-second dial timeout and reading the banner line (gpsd.go:54-64) are network I/O. Their outcome is the `connected` parameter of `Dial`.
- `readLine`'s inspection and printing of read errors (gpsd.go:155-166) is logging. A read is modelled only as a line or an error.
- `Run`/`run` (gpsd.go:74-92) is left out: the goroutine, the one-second sleep, re-dialing and re-sending WATCH in an endless loop are concurrency and timing.
- `Close` (gpsd.go:67-71) is left out: closing the channel and the socket is concurrency and I/O. The WATCH text it sends is stated by `StopWatchCommand`.
- `VersionSync`, `PollSync` and `WatchSync` (gpsd.go:95-124) are a send followed by a raw socket read, which races the read loop.
- The JSON library is not modelled. The class peek in `getClass`, `json.Unmarshal` and the report field layouts are parameters of the model. What `json.Unmarshal` builds for a report is reduced to its target kind and its line.
- The error messages the loop and `getClass` print are not modelled.
- Gpsd.Session.SendCommand: writes the framed command verbatim, which is the intended behaviour. The written code passes the command to `Fprintf` as a format string; `Fprintf.SentAsWritten` models that, and Findings records the difference.
- Fprintf.FormatNoOperands: does not model a directive that takes its width or precision from an operand (`*`) or names an operand (`[n]`). Its precondition excludes formats with such a directive; `*` and `[` elsewhere are copied like any other text.
- Gpsd.Session.WatchLoop: ends when its input ends, where the real loop would block on the next read.
- examples/main.go is not part of this model. It is a demonstration program with no logic of its own.

## Findings

| source | as written | input that shows it | evidently intended | confidence | as-written member | corrected member |
|---|---|---|---|---|---|---|
| gpsd.go:141 | the framed command is used as the format string of `Fprintf`, so a `%` in it starts a directive | `Watch(map[string]bool{"%": true})` writes `?WATCH={"%!"(MISSING):true};` | write `?` + command + `;` verbatim | medium, not executed | Fprintf.PercentInOptionMangled | Gpsd.Session.SendCommand |
