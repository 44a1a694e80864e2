/**
 * The client side of gpsd's command syntax: every command goes out as
 * `?NAME;` or `?NAME={...};`, and the WATCH payload is a JSON-style
 * object built from boolean options.
 */
module Commands {
  import opened Wrappers

  const WatchCommand: string := "WATCH"
  const PollCommand: string := "POLL"
  const VersionCommand: string := "VERSION"

  /** The text SendCommand writes to the socket for `command`. */
  function Framed(command: string): (line: string)
    ensures |line| == |command| + 2
    ensures line[0] == '?' && line[|line| - 1] == ';'
    ensures line[1..|line| - 1] == command
  {
    "?" + command + ";"
  }

  /** How the daemon reads a framed command back: the inverse of Framed. */
  function Unframed(line: string): Option<string>
  {
    if 2 <= |line| && line[0] == '?' && line[|line| - 1] == ';' then Some(line[1..|line| - 1]) else None
  }

  lemma FramedRoundTrip(command: string)
    ensures Unframed(Framed(command)) == Some(command)
  {
  }

  lemma UnframedRoundTrip(line: string, command: string)
    requires Unframed(line) == Some(command)
    ensures Framed(command) == line
  {
    assert line == [line[0]] + line[1..|line| - 1] + [line[|line| - 1]];
  }

  /** `%v` of a Go bool. */
  function BoolText(v: bool): string
  {
    if v then "true" else "false"
  }

  /** One `"key":value` member of the WATCH options. */
  function Entry(key: string, value: bool): string
  {
    "\"" + key + "\":" + BoolText(value)
  }

  /** Distinct options never render to the same member text. */
  lemma EntryInjective(k1: string, v1: bool, k2: string, v2: bool)
    requires Entry(k1, v1) == Entry(k2, v2)
    ensures k1 == k2 && v1 == v2
  {
    var e := Entry(k1, v1);
    // five characters from the end: the ':' before "true", the 'f' of "false"
    assert e[|e| - 5] == (if v1 then ':' else 'f');
    assert e[|e| - 5] == (if v2 then ':' else 'f');
    var n := |BoolText(v1)|;
    assert k1 == e[1..|e| - n - 2];
    assert k2 == e[1..|e| - n - 2];
  }

  /** Go's strings.Join. */
  function Join(parts: seq<string>, sep: string): string
  {
    if |parts| == 0 then ""
    else if |parts| == 1 then parts[0]
    else parts[0] + sep + Join(parts[1..], sep)
  }

  /** Splitting at every occurrence of `sep`: the reader's side of Join. */
  function Split(s: string, sep: char): (parts: seq<string>)
    ensures |parts| >= 1
    decreases |s|
  {
    if |s| == 0 then [""]
    else
      var rest := Split(s[1..], sep);
      if s[0] == sep then [""] + rest else [[s[0]] + rest[0]] + rest[1..]
  }

  lemma {:induction false} SplitWithoutSep(p: string, sep: char)
    requires sep !in p
    ensures Split(p, sep) == [p]
    decreases |p|
  {
    if |p| > 0 {
      SplitWithoutSep(p[1..], sep);
      assert [p[0]] + p[1..] == p;
    }
  }

  lemma {:induction false} SplitAfterFirst(p: string, sep: char, t: string)
    requires sep !in p
    ensures Split(p + [sep] + t, sep) == [p] + Split(t, sep)
    decreases |p|
  {
    var s := p + [sep] + t;
    if |p| == 0 {
      assert s[1..] == t;
    } else {
      assert s[1..] == p[1..] + [sep] + t;
      SplitAfterFirst(p[1..], sep, t);
      assert [p[0]] + p[1..] == p;
    }
  }

  /** Joining parts that do not contain the separator can be undone by Split. */
  lemma {:induction false} SplitJoin(parts: seq<string>, sep: char)
    requires |parts| >= 1
    requires forall i :: 0 <= i < |parts| ==> sep !in parts[i]
    ensures Split(Join(parts, [sep]), sep) == parts
  {
    if |parts| == 1 {
      SplitWithoutSep(parts[0], sep);
    } else {
      SplitJoin(parts[1..], sep);
      SplitAfterFirst(parts[0], sep, Join(parts[1..], [sep]));
      assert [parts[0]] + parts[1..] == parts;
    }
  }

  /** The members of the WATCH options, listed in `order`. */
  function Entries(options: map<string, bool>, order: seq<string>): (es: seq<string>)
    requires forall k :: k in order ==> k in options
    ensures |es| == |order|
    ensures forall i :: 0 <= i < |order| ==> es[i] == Entry(order[i], options[order[i]])
  {
    if order == [] then []
    else
      var last := order[|order| - 1];
      Entries(options, order[..|order| - 1]) + [Entry(last, options[last])]
  }

  /** `order` lists every key of the set exactly once: one possible Go map iteration. */
  ghost predicate IsEnumeration(order: seq<string>, keys: set<string>)
  {
    && (forall i, j :: 0 <= i < j < |order| ==> order[i] != order[j])
    && (forall k :: k in order <==> k in keys)
  }

  lemma {:induction false} EnumerationSize(order: seq<string>, keys: set<string>)
    requires IsEnumeration(order, keys)
    ensures |order| == |keys|
  {
    if order != [] {
      var last := order[|order| - 1];
      var init := order[..|order| - 1];
      forall k ensures k in init <==> k in keys - {last} {
        if k in init {
          var j :| 0 <= j < |init| && init[j] == k;
          assert order[j] == k;
        }
        if k in keys - {last} {
          assert k in order;
          var j :| 0 <= j < |order| && order[j] == k;
          assert j != |order| - 1;
          assert init[j] == k;
        }
      }
      EnumerationSize(init, keys - {last});
    }
  }

  /** The command name Watch passes to SendCommand, for the key order the map iteration took. */
  function WatchText(watchObject: seq<map<string, bool>>, order: seq<string>): string
    requires |watchObject| == 1 ==> forall k :: k in order ==> k in watchObject[0]
  {
    if |watchObject| == 1 then WatchCommand + "={" + Join(Entries(watchObject[0], order), ",") + "}"
    else WatchCommand
  }

  /**
   * Watch's payload construction: walks the single option map in some
   * unspecified order (Go map iteration), accumulating one member per key.
   */
  method FormatWatch(watchObject: seq<map<string, bool>>) returns (command: string, ghost order: seq<string>)
    ensures |watchObject| == 1 ==> IsEnumeration(order, watchObject[0].Keys)
    ensures command == WatchText(watchObject, order)
  {
    var objectString := "";
    order := [];
    if |watchObject| == 1 {
      var options := watchObject[0];
      var values: seq<string> := [];
      var remaining := options.Keys;
      while remaining != {}
        invariant remaining <= options.Keys
        invariant forall i, j :: 0 <= i < j < |order| ==> order[i] != order[j]
        invariant forall k :: k in order <==> k in options.Keys && k !in remaining
        invariant values == Entries(options, order)
        decreases remaining
      {
        var k :| k in remaining;
        values := values + [Entry(k, options[k])];
        order := order + [k];
        remaining := remaining - {k};
      }
      objectString := "={" + Join(values, ",") + "}";
    }
    command := WatchCommand + objectString;
  }

  lemma WatchWithoutObject(watchObject: seq<map<string, bool>>, order: seq<string>)
    requires |watchObject| != 1
    ensures Framed(WatchText(watchObject, order)) == "?WATCH;"
  {
  }

  lemma WatchEmptyObject(order: seq<string>)
    requires IsEnumeration(order, {})
    ensures Framed(WatchText([map[]], order)) == "?WATCH={};"
  {
    EnumerationSize(order, {});
  }

  /** With one option map, Watch sends the members, comma-joined, between braces. */
  lemma WatchObjectText(options: map<string, bool>, order: seq<string>)
    requires forall k :: k in order ==> k in options
    ensures Framed(WatchText([options], order)) == "?WATCH={" + Join(Entries(options, order), ",") + "};"
  {
    var j := Join(Entries(options, order), ",");
    calc {
      Framed(WatchText([options], order));
      "?" + (WatchCommand + "={" + j + "}") + ";";
      "?WATCH={" + j + "};";
    }
  }

  /** With one option map, every option appears once, with its value, and nothing else appears. */
  lemma WatchObjectMembers(options: map<string, bool>, order: seq<string>)
    requires IsEnumeration(order, options.Keys)
    ensures var es := Entries(options, order);
      && |es| == |options|
      && (forall k :: k in options ==> Entry(k, options[k]) in es)
      && (forall e :: e in es ==> exists k :: k in options && e == Entry(k, options[k]))
      && (forall i, j :: 0 <= i < j < |es| ==> es[i] != es[j])
  {
    var es := Entries(options, order);
    EnumerationSize(order, options.Keys);
    forall k | k in options ensures Entry(k, options[k]) in es {
      var i :| 0 <= i < |order| && order[i] == k;
      assert es[i] == Entry(k, options[k]);
    }
    forall e | e in es ensures exists k :: k in options && e == Entry(k, options[k]) {
      var i :| 0 <= i < |es| && es[i] == e;
      assert order[i] in order;
    }
    forall i, j | 0 <= i < j < |es| ensures es[i] != es[j] {
      if es[i] == es[j] {
        EntryInjective(order[i], options[order[i]], order[j], options[order[j]]);
      }
    }
  }

  /** When no option name contains a comma, the members of the options can be split back out. */
  lemma WatchObjectSplits(options: map<string, bool>, order: seq<string>)
    requires IsEnumeration(order, options.Keys)
    requires |options| > 0
    requires forall k :: k in options ==> ',' !in k
    ensures Split(Join(Entries(options, order), ","), ',') == Entries(options, order)
  {
    var es := Entries(options, order);
    EnumerationSize(order, options.Keys);
    forall i | 0 <= i < |es| ensures ',' !in es[i] {
      assert order[i] in order;
      var k := order[i];
      assert es[i] == "\"" + k + "\":" + BoolText(options[k]);
    }
    SplitJoin(es, ',');
  }

  /** The command the read loop sends before streaming: members in either order. */
  lemma StreamingWatchCommand(order: seq<string>)
    requires IsEnumeration(order, {"enable", "json"})
    ensures var line := Framed(WatchText([map["enable" := true, "json" := true]], order));
      line == "?WATCH={\"enable\":true,\"json\":true};" || line == "?WATCH={\"json\":true,\"enable\":true};"
  {
    EnumerationSize(order, {"enable", "json"});
    assert order[0] in order && order[1] in order;
    var options := map["enable" := true, "json" := true];
    WatchObjectText(options, order);
    var j := Join(Entries(options, order), ",");
    var a, b := Entry("enable", true), Entry("json", true);
    if order == ["enable", "json"] {
      assert j == a + "," + b;
      EnableJsonText();
    } else {
      assert order == ["json", "enable"];
      assert j == b + "," + a;
      JsonEnableText();
    }
  }

  lemma EnableJsonText()
    ensures "?WATCH={" + (Entry("enable", true) + "," + Entry("json", true)) + "};"
      == "?WATCH={\"enable\":true,\"json\":true};"
  {
    assert Entry("enable", true) == "\"enable\":true";
    assert Entry("json", true) == "\"json\":true";
  }

  lemma JsonEnableText()
    ensures "?WATCH={" + (Entry("json", true) + "," + Entry("enable", true)) + "};"
      == "?WATCH={\"json\":true,\"enable\":true};"
  {
    assert Entry("enable", true) == "\"enable\":true";
    assert Entry("json", true) == "\"json\":true";
  }

  /** The command Close sends to stop streaming. */
  lemma StopWatchCommand(order: seq<string>)
    requires IsEnumeration(order, {"enable"})
    ensures Framed(WatchText([map["enable" := false]], order)) == "?WATCH={\"enable\":false};"
  {
    EnumerationSize(order, {"enable"});
    assert order[0] in order;
    var options := map["enable" := false];
    WatchObjectText(options, order);
    var e := Entry("enable", false);
    assert e == "\"enable\":false";
    assert Join(Entries(options, order), ",") == e;
  }
}
