/**
 * The event emitter of `getEmitter`: a table from event names to the
 * ordered records subscribed to them. `on`, `several` and `through`
 * append a record, `off` splices records out of every list its event
 * name covers, and `emit` walks the namespaces of an event from the most
 * specific to the least, calling each record's handler when its `times`
 * or `frequency` gate lets it through and counting the emission either
 * way. A handler call is recorded in a log instead of being run.
 */
module Emitter {
  import opened Wrappers
  import opened Text
  import opened Numerals

  /** The identity of a subscriber object, compared with `===`. */
  type Context = nat

  /** The identity of a handler function. */
  type Handler = nat

  type Positive = n: nat | n > 0 witness 1

  /**
   * One subscription: its context, its handler, the optional limits
   * (`null` in the source is `None`) and the count of emissions so far.
   */
  datatype Record = Record(context: Context, handler: Handler, times: Option<Positive>,
                           frequency: Option<Positive>, emitted: nat)

  /** One handler invocation: `handler.call(context)`. */
  datatype Call = Call(handler: Handler, context: Context)

  // ---------------------------------------------------------------------
  // Subscribing

  /** The records subscribed to `name`, none when the table has no such list. */
  function Listeners(events: map<string, seq<Record>>, name: string): seq<Record>
  {
    if name in events then events[name] else []
  }

  /** The table after `addEvent` appends `r` to the list of `event`. */
  function Subscribe(events: map<string, seq<Record>>, event: string, r: Record): (result: map<string, seq<Record>>)
    ensures result.Keys == events.Keys + {event}
    ensures |result[event]| == |Listeners(events, event)| + 1
    ensures result[event][..|Listeners(events, event)|] == Listeners(events, event)
    ensures result[event][|Listeners(events, event)|] == r
    ensures forall k :: k in events && k != event ==> result[k] == events[k]
  {
    var list := Listeners(events, event) + [r];
    assert list[..|list| - 1] == Listeners(events, event);
    events[event := list]
  }

  /** `times > 0 ? times : null`, and likewise for `frequency`. */
  function Checked(n: int): (limit: Option<Positive>)
    ensures limit.Some? <==> n > 0
    ensures limit.Some? ==> limit.value == n
  {
    if n > 0 then Some(n) else None
  }

  /** A record with neither limit behaves as a plain `on` subscription. */
  function Fresh(context: Context, handler: Handler, times: Option<Positive>, frequency: Option<Positive>): Record
  {
    Record(context, handler, times, frequency, 0)
  }

  // ---------------------------------------------------------------------
  // The gate of `callHandler`

  /**
   * `callHandler` runs the handler unless the `times` limit is reached or
   * the `frequency` does not divide the number of emissions so far.
   */
  predicate Fires(r: Record)
  {
    !(r.times.Some? && r.times.value <= r.emitted) &&
    !(r.frequency.Some? && r.emitted >= 1 && r.emitted % r.frequency.value != 0)
  }

  /** Every new subscription is called on its first processed emission, whatever its limits. */
  lemma FreshFires(context: Context, handler: Handler, times: Option<Positive>, frequency: Option<Positive>)
    ensures Fires(Fresh(context, handler, times, frequency))
  {
  }

  /** `r` after `n` more processed emissions. */
  function Aged(r: Record, n: nat): Record
  {
    r.(emitted := r.emitted + n)
  }

  /** How often the handler of `r` runs over its next `n` processed emissions. */
  function FireCount(r: Record, n: nat): nat
    decreases n
  {
    if n == 0 then 0 else (if Fires(r) then 1 else 0) + FireCount(Aged(r, 1), n - 1)
  }

  /**
   * A record limited to `t` calls runs on exactly its first `t` processed
   * emissions: after `e` of them, `n` more give `min(n, t - e)` calls.
   */
  lemma {:induction false} TimesLimit(context: Context, handler: Handler, t: Positive, e: nat, n: nat)
    ensures FireCount(Record(context, handler, Some(t), None, e), n) ==
      if t <= e then 0 else if n <= t - e then n else t - e
    decreases n
  {
    if n > 0 {
      TimesLimit(context, handler, t, e + 1, n - 1);
    }
  }

  /** Stepping past a multiple of `f` lowers the quotient by one; otherwise it stays. */
  lemma QuotientStep(e: nat, f: Positive)
    ensures e % f == 0 ==> e / f - (e - 1) / f == 1
    ensures e % f != 0 ==> e / f == (e - 1) / f
  {
    var q, r := e / f, e % f;
    assert e == q * f + r && 0 <= r < f;
    if r == 0 {
      assert e - 1 == (q - 1) * f + (f - 1);
      DivisionUnique(e - 1, f, q - 1, f - 1);
    } else {
      assert e - 1 == q * f + (r - 1);
      DivisionUnique(e - 1, f, q, r - 1);
    }
  }

  lemma DivisionUnique(a: int, f: Positive, q: int, r: int)
    requires a == q * f + r && 0 <= r < f
    ensures a / f == q
  {
    var q', r' := a / f, a % f;
    assert a == q' * f + r' && 0 <= r' < f;
    assert (q' - q) * f == r - r';
    if q' > q {
      MulAtLeast(q' - q, f);
    } else if q' < q {
      MulAtLeast(q - q', f);
    }
  }

  /**
   * A record called every `f`-th time runs on processed emissions 1,
   * f + 1, 2f + 1, ...: after `e` of them, `n` more give as many calls as
   * there are multiples of `f` in `[e, e + n)`.
   */
  lemma {:induction false} FrequencyGate(context: Context, handler: Handler, f: Positive, e: nat, n: nat)
    ensures FireCount(Record(context, handler, None, Some(f), e), n) == (e + n - 1) / f - (e - 1) / f
    decreases n
  {
    var r := Record(context, handler, None, Some(f), e);
    if n > 0 {
      var next := Record(context, handler, None, Some(f), e + 1);
      assert Aged(r, 1) == next;
      FrequencyGate(context, handler, f, e + 1, n - 1);
      var hi, mid, lo := (e + n - 1) / f, e / f, (e - 1) / f;
      assert FireCount(next, n - 1) == hi - mid by {
        assert e + 1 + (n - 1) - 1 == e + n - 1 && e + 1 - 1 == e;
      }
      var gate := if Fires(r) then 1 else 0;
      assert FireCount(r, n) == gate + FireCount(next, n - 1);
      QuotientStep(e, f);
      assert gate == mid - lo;
    }
  }

  /** Over `n` emissions from subscription, a record called every `f`-th time runs `ceil(n / f)` times. */
  lemma FrequencyFromStart(context: Context, handler: Handler, f: Positive, n: nat)
    ensures FireCount(Fresh(context, handler, None, Some(f)), n) == (n + f - 1) / f
  {
    FrequencyGate(context, handler, f, 0, n);
    DivisionUnique(-1, f, -1, f - 1);
    var q := (n - 1) / f;
    assert n - 1 == q * f + (n - 1) % f;
    DivisionUnique(n + f - 1, f, q + 1, (n - 1) % f);
  }

  // ---------------------------------------------------------------------
  // Emitting

  /** The namespaces `emit(event)` visits: `a.b.c`, then `a.b`, then `a`. */
  function Namespaces(event: string): (names: seq<string>)
    ensures |names| == |Split(event, '.')|
  {
    var parts := Split(event, '.');
    seq(|parts|, i requires 0 <= i < |parts| => Join(parts[..|parts| - i], '.'))
  }

  /** Joining one more part adds the separator and the part at the end. */
  lemma {:induction false} JoinSnoc(parts: seq<string>, sep: char, last: string)
    requires |parts| >= 1
    ensures Join(parts + [last], sep) == Join(parts, sep) + [sep] + last
  {
    if |parts| > 1 {
      JoinSnoc(parts[1..], sep, last);
      assert (parts + [last])[1..] == parts[1..] + [last];
    }
  }

  /**
   * The first namespace is the event itself, and each next one is the
   * previous with its last `.`-separated part removed, so the namespaces
   * get strictly shorter and no name is visited twice.
   */
  lemma NamespacesShrink(event: string)
    ensures Namespaces(event)[0] == event
    ensures forall i :: 0 < i < |Namespaces(event)| ==>
      Namespaces(event)[i - 1] == Namespaces(event)[i] + "." + Split(event, '.')[|Split(event, '.')| - i]
  {
    var parts := Split(event, '.');
    assert parts[..|parts|] == parts;
    JoinSplit(event, '.');
    forall i | 0 < i < |parts|
      ensures Namespaces(event)[i - 1] == Namespaces(event)[i] + "." + parts[|parts| - i]
    {
      var k := |parts| - i;
      assert parts[..k + 1] == parts[..k] + [parts[k]];
      JoinSnoc(parts[..k], '.', parts[k]);
    }
  }

  /** The namespaces are pairwise distinct. */
  lemma NamespacesDistinct(event: string)
    ensures forall i, j :: 0 <= i < j < |Namespaces(event)| ==> |Namespaces(event)[j]| < |Namespaces(event)[i]|
  {
    var names := Namespaces(event);
    NamespacesShrink(event);
    forall i, j | 0 <= i < j < |names|
      ensures |names[j]| < |names[i]|
    {
      var k := i;
      while k < j
        invariant i <= k <= j && |names[k]| <= |names[i]|
        invariant k > i ==> |names[k]| < |names[i]|
      {
        assert |names[k + 1]| < |names[k]|;
        k := k + 1;
      }
    }
  }

  /** `emit('a.b.c')` visits `a.b.c`, `a.b` and `a`, in that order. */
  lemma NamespacesExample()
    ensures Namespaces("a.b.c") == ["a.b.c", "a.b", "a"]
  {
    var parts := ["a", "b", "c"];
    assert Join(["b", "c"], '.') == "b.c";
    assert Join(parts, '.') == "a.b.c";
    SplitJoin(parts, '.');
    var names := Namespaces("a.b.c");
    assert |names| == 3;
    assert parts[..3] == parts && parts[..2] == ["a", "b"] && parts[..1] == ["a"];
    assert names[0] == "a.b.c";
    assert Join(["a", "b"], '.') == "a.b";
    assert names[1] == "a.b";
    assert Join(["a"], '.') == "a";
    assert names[2] == "a";
  }

  /** The list after one processed emission: every record counts it. */
  function Bumped(records: seq<Record>): (bumped: seq<Record>)
    ensures |bumped| == |records|
    ensures forall j :: 0 <= j < |records| ==> bumped[j] == Aged(records[j], 1)
  {
    seq(|records|, j requires 0 <= j < |records| => Aged(records[j], 1))
  }

  /** The call `callHandler` makes for `r`, if its gate lets it through. */
  function CallIf(r: Record): seq<Call>
  {
    if Fires(r) then [Call(r.handler, r.context)] else []
  }

  /** The calls one processed emission makes, in subscription order. */
  function Fired(records: seq<Record>): seq<Call>
  {
    if |records| == 0 then [] else CallIf(records[0]) + Fired(records[1..])
  }

  /** Each record of the list contributes at most one call. */
  lemma {:induction false} FiredAtMostOnePerRecord(records: seq<Record>)
    ensures |Fired(records)| <= |records|
    ensures forall c :: c in Fired(records) ==>
      exists j :: 0 <= j < |records| && Fires(records[j]) && c == Call(records[j].handler, records[j].context)
  {
    if |records| > 0 {
      FiredAtMostOnePerRecord(records[1..]);
      forall c | c in Fired(records)
        ensures exists j :: 0 <= j < |records| && Fires(records[j]) && c == Call(records[j].handler, records[j].context)
      {
        if c !in CallIf(records[0]) {
          var j :| 0 <= j < |records[1..]| && Fires(records[1..][j]) &&
            c == Call(records[1..][j].handler, records[1..][j].context);
          assert records[1..][j] == records[j + 1];
        }
      }
    }
  }

  /** The table after the records of `name`, if any, take one emission. */
  function Deliver(events: map<string, seq<Record>>, name: string): map<string, seq<Record>>
  {
    if name in events then events[name := Bumped(events[name])] else events
  }

  /** The table after `emit` has processed the namespaces `names` in order. */
  function AfterEmit(events: map<string, seq<Record>>, names: seq<string>): map<string, seq<Record>>
  {
    if |names| == 0 then events else AfterEmit(Deliver(events, names[0]), names[1..])
  }

  /** The calls `emit` makes while processing the namespaces `names` in order. */
  function CallsOf(events: map<string, seq<Record>>, names: seq<string>): seq<Call>
  {
    if |names| == 0 then []
    else Fired(Listeners(events, names[0])) + CallsOf(Deliver(events, names[0]), names[1..])
  }

  /** The calls of the lists of `names`, read from one table, in the order of `names`. */
  function FiredAll(events: map<string, seq<Record>>, names: seq<string>): seq<Call>
  {
    if |names| == 0 then [] else Fired(Listeners(events, names[0])) + FiredAll(events, names[1..])
  }

  /**
   * Over distinct names, every record of a visited list counts exactly
   * one emission, every other list is untouched, and no list is added.
   */
  lemma {:induction false} AfterEmitBumpsOnce(events: map<string, seq<Record>>, names: seq<string>)
    requires forall i, j :: 0 <= i < j < |names| ==> names[i] != names[j]
    ensures AfterEmit(events, names).Keys == events.Keys
    ensures forall k :: k in events ==>
      AfterEmit(events, names)[k] == if k in names then Bumped(events[k]) else events[k]
  {
    if |names| > 0 {
      var next := Deliver(events, names[0]);
      AfterEmitBumpsOnce(next, names[1..]);
      forall k | k in events
        ensures AfterEmit(events, names)[k] == if k in names then Bumped(events[k]) else events[k]
      {
        if k == names[0] {
          assert k !in names[1..] by {
            forall i | 0 <= i < |names[1..]| ensures names[1..][i] != k {
              assert names[1..][i] == names[i + 1];
            }
          }
        } else {
          assert k in names <==> k in names[1..] by {
            assert names == [names[0]] + names[1..];
          }
        }
      }
    }
  }

  /**
   * Over distinct names, the calls are those of each visited list as it
   * stood before `emit`, namespace after namespace.
   */
  lemma {:induction false} CallsInNamespaceOrder(events: map<string, seq<Record>>, names: seq<string>)
    requires forall i, j :: 0 <= i < j < |names| ==> names[i] != names[j]
    ensures CallsOf(events, names) == FiredAll(events, names)
  {
    if |names| > 0 {
      var next := Deliver(events, names[0]);
      CallsInNamespaceOrder(next, names[1..]);
      FiredAllUnchanged(events, next, names[1..], names[0]);
    }
  }

  /**
   * What `emit` does to the table and which calls it makes, for every
   * event name: the namespaces are distinct, so each visited list counts
   * one emission and calls its gated records as they stood before.
   */
  lemma EmitOverNamespaces(events: map<string, seq<Record>>, event: string)
    ensures AfterEmit(events, Namespaces(event)).Keys == events.Keys
    ensures forall k :: k in events ==>
      AfterEmit(events, Namespaces(event))[k] == if k in Namespaces(event) then Bumped(events[k]) else events[k]
    ensures CallsOf(events, Namespaces(event)) == FiredAll(events, Namespaces(event))
  {
    var names := Namespaces(event);
    NamespacesDistinct(event);
    assert forall i, j :: 0 <= i < j < |names| ==> names[i] != names[j] by {
      forall i, j | 0 <= i < j < |names| ensures names[i] != names[j] {
        assert |names[j]| < |names[i]|;
      }
    }
    AfterEmitBumpsOnce(events, names);
    CallsInNamespaceOrder(events, names);
  }

  /** Lists of other names than `name` read the same from the table before and after `Deliver`. */
  lemma {:induction false} FiredAllUnchanged(events: map<string, seq<Record>>, next: map<string, seq<Record>>,
                                              names: seq<string>, name: string)
    requires next == Deliver(events, name)
    requires forall i :: 0 <= i < |names| ==> names[i] != name
    ensures FiredAll(next, names) == FiredAll(events, names)
  {
    if |names| > 0 {
      FiredAllUnchanged(events, next, names[1..], name);
      assert Listeners(next, names[0]) == Listeners(events, names[0]);
    }
  }

  /** Processing one more namespace peels it off the front of `AfterEmit` and `CallsOf`. */
  lemma EmitStep(events: map<string, seq<Record>>, names: seq<string>, index: nat)
    requires index < |names|
    ensures AfterEmit(events, names[index..]) == AfterEmit(Deliver(events, names[index]), names[index + 1..])
    ensures CallsOf(events, names[index..]) ==
      Fired(Listeners(events, names[index])) + CallsOf(Deliver(events, names[index]), names[index + 1..])
  {
    assert names[index..][1..] == names[index + 1..];
  }

  // ---------------------------------------------------------------------
  // Unsubscribing

  /** `off(event)` reaches the list `key` when it is `event` or starts with `event + '.'`. */
  predicate Covers(event: string, key: string)
  {
    key == event || event + "." <= key
  }

  /** `off('slide')` reaches `slide.funny` but not `slideshow`. */
  lemma CoversExample()
    ensures Covers("slide", "slide.funny")
    ensures !Covers("slide", "slideshow")
  {
    assert "slide.funny"[..6] == "slide.";
    assert "slideshow"[5] == 's';
  }

  /**
   * One `forEach` pass that splices out the records of `context`: the
   * record moved into a removed one's place is never visited, so it stays.
   */
  function Thin(records: seq<Record>, context: Context): seq<Record>
    decreases |records|
  {
    if |records| == 0 then []
    else if records[0].context == context then
      (if |records| == 1 then [] else [records[1]] + Thin(records[2..], context))
    else [records[0]] + Thin(records[1..], context)
  }

  /** The records of other contexts, in order. */
  function Others(records: seq<Record>, context: Context): seq<Record>
  {
    if |records| == 0 then []
    else (if records[0].context == context then [] else [records[0]]) + Others(records[1..], context)
  }

  /** A pass never removes a record of another context, nor reorders them. */
  lemma {:induction false} ThinKeepsOthers(records: seq<Record>, context: Context)
    ensures Others(Thin(records, context), context) == Others(records, context)
    decreases |records|
  {
    if |records| > 0 {
      if records[0].context == context {
        if |records| > 1 {
          ThinKeepsOthers(records[2..], context);
          assert records[1..][1..] == records[2..];
          assert ([records[1]] + Thin(records[2..], context))[1..] == Thin(records[2..], context);
        }
      } else {
        ThinKeepsOthers(records[1..], context);
        assert ([records[0]] + Thin(records[1..], context))[1..] == Thin(records[1..], context);
      }
    }
  }

  /** A pass only removes records: what is left was in the list. */
  lemma {:induction false} ThinOnlyRemoves(records: seq<Record>, context: Context)
    ensures |Thin(records, context)| <= |records|
    ensures forall r :: r in Thin(records, context) ==> r in records
    decreases |records|
  {
    if |records| > 0 {
      if records[0].context == context {
        if |records| > 1 {
          ThinOnlyRemoves(records[2..], context);
          assert forall r :: r in records[2..] ==> r in records;
        }
      } else {
        ThinOnlyRemoves(records[1..], context);
        assert forall r :: r in records[1..] ==> r in records;
      }
    }
  }

  /** No two records of `context` stand next to each other. */
  predicate Apart(records: seq<Record>, context: Context)
  {
    forall j :: 0 <= j < |records| - 1 ==> !(records[j].context == context && records[j + 1].context == context)
  }

  /** When no two records of `context` are adjacent, one pass removes all of them. */
  lemma {:induction false} ThinRemovesApart(records: seq<Record>, context: Context)
    requires Apart(records, context)
    ensures forall r :: r in Thin(records, context) ==> r.context != context
    decreases |records|
  {
    if |records| > 0 {
      if records[0].context == context {
        if |records| > 1 {
          assert records[1].context != context;
          ThinRemovesApart(records[2..], context);
        }
      } else {
        ThinRemovesApart(records[1..], context);
      }
    }
  }

  /** Of two adjacent records of `context`, one pass removes only the first. */
  lemma ThinSkipsNext(a: Record, b: Record, context: Context)
    requires a.context == context && b.context == context
    ensures Thin([a, b], context) == [b]
  {
    assert [a, b][2..] == [];
  }

  /**
   * What a pass has left once it reaches `index`: the visited prefix and
   * the pass over the rest, or the whole list when a splice at the end
   * pushed the index past it.
   */
  function Pending(kept: seq<Record>, index: nat, context: Context): seq<Record>
  {
    if index <= |kept| then kept[..index] + Thin(kept[index..], context) else kept
  }

  /** One visit of the pass, splicing or not, leaves the outcome unchanged. */
  lemma PendingStep(before: seq<Record>, index: nat, context: Context, after: seq<Record>)
    requires index < |before|
    requires after == if before[index].context == context then before[..index] + before[index + 1..] else before
    ensures Pending(after, index + 1, context) == Pending(before, index, context)
  {
    var rest := before[index..];
    if before[index].context == context {
      if index + 1 < |before| {
        assert rest[2..] == before[index + 2..];
        assert after[..index + 1] == before[..index] + [before[index + 1]];
        assert after[index + 1..] == before[index + 2..];
      } else {
        assert after == before[..index];
      }
    } else {
      assert rest[1..] == before[index + 1..];
      assert before[..index + 1] == before[..index] + [before[index]];
    }
  }

  /** The table after `off(event, context)`. */
  function Unsubscribe(events: map<string, seq<Record>>, event: string, context: Context): (result: map<string, seq<Record>>)
    ensures result.Keys == events.Keys
  {
    map k | k in events :: if Covers(event, k) then Thin(events[k], context) else events[k]
  }

  /** `off` leaves every list its event does not cover exactly as it was. */
  lemma UnsubscribeElsewhere(events: map<string, seq<Record>>, event: string, context: Context, key: string)
    requires key in events && !Covers(event, key)
    ensures Unsubscribe(events, event, context)[key] == events[key]
  {
  }

  // ---------------------------------------------------------------------
  // The emitter object

  class EventEmitter {
    /** The subscription table of `getEmitter`. */
    var events: map<string, seq<Record>>
    /** Every handler call made so far. */
    var calls: seq<Call>

    constructor ()
      ensures events == map[] && calls == []
    {
      events := map[];
      calls := [];
    }

    /** `addEvent`: creates the list when absent and appends a fresh record. */
    method AddEvent(event: string, context: Context, handler: Handler, times: Option<Positive>, frequency: Option<Positive>)
      modifies this
      ensures events == Subscribe(old(events), event, Fresh(context, handler, times, frequency))
      ensures calls == old(calls)
    {
      if event !in events {
        events := events[event := []];
      }
      var contexts := events[event];
      events := events[event := contexts + [Record(context, handler, times, frequency, 0)]];
    }

    /** `on`: a subscription with neither limit. */
    method On(event: string, context: Context, handler: Handler)
      modifies this
      ensures events == Subscribe(old(events), event, Fresh(context, handler, None, None))
      ensures calls == old(calls)
    {
      AddEvent(event, context, handler, None, None);
    }

    /** `several`: a subscription limited to `times` calls, or none when `times` is not positive. */
    method Several(event: string, context: Context, handler: Handler, times: int)
      modifies this
      ensures events == Subscribe(old(events), event, Fresh(context, handler, Checked(times), None))
      ensures calls == old(calls)
    {
      var timesChecked := if times > 0 then Some(times as Positive) else None;
      AddEvent(event, context, handler, timesChecked, None);
    }

    /** `through`: a subscription called every `frequency`-th time, or always when it is not positive. */
    method Through(event: string, context: Context, handler: Handler, frequency: int)
      modifies this
      ensures events == Subscribe(old(events), event, Fresh(context, handler, None, Checked(frequency)))
      ensures calls == old(calls)
    {
      var frequencyChecked := if frequency > 0 then Some(frequency as Positive) else None;
      AddEvent(event, context, handler, None, frequencyChecked);
    }

    /** The `forEach` over one list with `splice` inside it. */
    static method SpliceOut(records: seq<Record>, context: Context) returns (kept: seq<Record>)
      ensures kept == Thin(records, context)
    {
      kept := records;
      var index := 0;
      assert kept[..0] + Thin(kept[0..], context) == Thin(records, context) by {
        assert kept[0..] == kept;
      }
      while index < |kept|
        invariant index <= |kept| + 1
        invariant Pending(kept, index, context) == Thin(records, context)
        decreases |kept| + 1 - index
      {
        ghost var before := kept;
        if kept[index].context == context {
          kept := kept[..index] + kept[index + 1..];
        }
        PendingStep(before, index, context, kept);
        index := index + 1;
      }
      if index == |kept| {
        assert kept[..index] == kept && kept[index..] == [];
      }
    }

    /** `off`: every list whose name the event covers loses the records of `context`, as one pass leaves it. */
    method Off(event: string, context: Context)
      modifies this
      ensures events == Unsubscribe(old(events), event, context)
      ensures calls == old(calls)
    {
      var remaining := events.Keys;
      while remaining != {}
        invariant remaining <= events.Keys && events.Keys == old(events).Keys
        invariant forall k :: k in events ==>
          events[k] == if k !in remaining && Covers(event, k) then Thin(old(events)[k], context) else old(events)[k]
        invariant calls == old(calls)
        decreases remaining
      {
        var currentEvent :| currentEvent in remaining;
        if currentEvent == event || event + "." <= currentEvent {
          var contexts := SpliceOut(events[currentEvent], context);
          events := events[currentEvent := contexts];
        }
        remaining := remaining - {currentEvent};
      }
    }

    /** One namespace of `emit`: each record in order is offered to `callHandler` and counts the emission. */
    method Notify(name: string)
      modifies this
      ensures events == Deliver(old(events), name)
      ensures calls == old(calls) + Fired(Listeners(old(events), name))
    {
      if name !in events {
        return;
      }
      var contexts := events[name];
      ghost var original := contexts;
      for j := 0 to |contexts|
        invariant |contexts| == |original|
        invariant forall j' :: 0 <= j' < j ==> contexts[j'] == Aged(original[j'], 1)
        invariant forall j' :: j <= j' < |contexts| ==> contexts[j'] == original[j']
        invariant calls + Fired(original[j..]) == old(calls) + Fired(original)
        invariant events == old(events)
      {
        assert original[j..][1..] == original[j + 1..];
        if Fires(contexts[j]) {
          calls := calls + [Call(contexts[j].handler, contexts[j].context)];
        }
        contexts := contexts[j := Aged(contexts[j], 1)];
      }
      assert original[|original|..] == [];
      assert contexts == Bumped(original);
      events := events[name := contexts];
    }

    /** `emit`: the namespaces of the event, most specific first, each one notified when it has a list. */
    method Emit(event: string)
      modifies this
      ensures events == AfterEmit(old(events), Namespaces(event))
      ensures calls == old(calls) + CallsOf(old(events), Namespaces(event))
    {
      var separateEvents := Split(event, '.');
      ghost var names := Namespaces(event);
      var index := 0;
      while index < |separateEvents|
        invariant 0 <= index <= |separateEvents|
        invariant AfterEmit(events, names[index..]) == AfterEmit(old(events), names)
        invariant calls + CallsOf(events, names[index..]) == old(calls) + CallsOf(old(events), names)
      {
        var currentEvent := Join(separateEvents[..|separateEvents| - index], '.');
        assert currentEvent == names[index];
        ghost var before, logged := events, calls;
        Notify(currentEvent);
        EmitStep(before, names, index);
        index := index + 1;
      }
    }
  }
}
