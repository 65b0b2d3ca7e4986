/**
 * One tick of the broadcast task: for every entry of the cached subscriber
 * list `funny`, fetch a quote, skip empty entries, parse the entry as a
 * channel id and send the formatted quote there. A bad id or a failed send
 * panics, which ends the spawned task. The quote service and the transport are
 * oracles indexed by entry: `quoteAt(k)` is the result of the fetch made for
 * entry `k`, and `sayOk(k)` tells whether the send to entry `k`'s channel
 * succeeds.
 */
module Broadcast {
  import opened Wrappers
  import opened Filtering
  import opened Decimal

  /** The result of one `quote_of_the_day("funny")` call: `(quote, author)` or an error text. */
  type QuoteResult = Result<(string, string), string>

  /** The part of the cached subscriber record the tick reads. */
  datatype Subscriber = Subscriber(funny: seq<string>)

  const NotU64 := "Not a u64 number"
  const DeliveryFailed := "Failed to deliver message"

  /** A message delivered to a channel. */
  datatype Send = Send(channel: nat, text: string)

  /** How one entry of `funny` is handled. */
  datatype EntryOutcome =
    | FetchFailed(why: string)
    | EmptyEntry
    | Delivered(send: Send)
    | Panic(reason: string)

  /** A tick either runs through every entry or panics while handling entry `entry`. */
  datatype TickEnd = Completed | TaskPanicked(entry: nat, reason: string)

  /** What a tick does: the sends in order, the fetch calls made and the entries skipped. */
  datatype Plan = Plan(sends: seq<Send>, fetchCalls: nat, skipped: nat, end: TickEnd)

  /** The text sent: the quote, a newline, then the author between `-_` and `_`. */
  function Message(quote: string, author: string): string {
    quote + "\n-_" + author + "_"
  }

  /** Where the quote, the separator, the author and the closing underscore sit in the message. */
  lemma MessageLayout(quote: string, author: string)
    ensures var m := Message(quote, author);
            && |m| == |quote| + |author| + 4
            && m[..|quote|] == quote && m[|quote|..|quote| + 3] == "\n-_"
            && m[|quote| + 3..|m| - 1] == author && m[|m| - 1] == '_'
  {
  }

  /** The position of the first newline of `s`, or `|s|` when there is none. */
  function NewlineAt(s: string): (n: nat)
    ensures n <= |s|
  {
    if |s| == 0 || s[0] == '\n' then 0 else 1 + NewlineAt(s[1..])
  }

  lemma {:induction false} NewlineAfterQuote(quote: string, rest: string)
    requires forall k :: 0 <= k < |quote| ==> quote[k] != '\n'
    requires |rest| > 0 && rest[0] == '\n'
    ensures NewlineAt(quote + rest) == |quote|
  {
    if |quote| > 0 {
      assert (quote + rest)[1..] == quote[1..] + rest;
      NewlineAfterQuote(quote[1..], rest);
    }
  }

  /** The format is unambiguous: for quotes without a newline, the message determines quote and author. */
  lemma MessageInjective(q1: string, a1: string, q2: string, a2: string)
    requires forall k :: 0 <= k < |q1| ==> q1[k] != '\n'
    requires forall k :: 0 <= k < |q2| ==> q2[k] != '\n'
    requires Message(q1, a1) == Message(q2, a2)
    ensures q1 == q2 && a1 == a2
  {
    var m := Message(q1, a1);
    assert m == q1 + ("\n-_" + a1 + "_");
    assert m == q2 + ("\n-_" + a2 + "_");
    NewlineAfterQuote(q1, "\n-_" + a1 + "_");
    NewlineAfterQuote(q2, "\n-_" + a2 + "_");
    MessageLayout(q1, a1);
    MessageLayout(q2, a2);
  }

  lemma MessageExample()
    ensures Message("D", "A") == "D\n-_A_"
  {
  }

  /** An entry is delivered to when its fetch succeeded, it is non-empty, it parses as an id and the send succeeds. */
  predicate Delivers(channels: string, fetched: QuoteResult, said: bool) {
    fetched.Ok? && |channels| > 0 && ParseU64(channels).Some? && said
  }

  /** The handling of one entry, in the order the loop body checks things. */
  function Step(channels: string, fetched: QuoteResult, said: bool): (r: EntryOutcome)
    ensures r.FetchFailed? <==> fetched.Err?
    ensures r.EmptyEntry? <==> fetched.Ok? && |channels| == 0
    ensures r.Delivered? <==> Delivers(channels, fetched, said)
    ensures r.Delivered? ==> r.send == Send(ParseU64(channels).value, Message(fetched.value.0, fetched.value.1))
    ensures r.Panic? ==> r.reason == (if ParseU64(channels).None? then NotU64 else DeliveryFailed)
  {
    match fetched
    case Err(why) => FetchFailed(why)
    case Ok((quote, author)) =>
      if |channels| == 0 then EmptyEntry
      else
        match ParseU64(channels)
        case None => Panic(NotU64)
        case Some(chid) => if said then Delivered(Send(chid, Message(quote, author))) else Panic(DeliveryFailed)
  }

  /** The outcome every entry would have if the tick reached it. */
  function Outcomes(funny: seq<string>, quoteAt: nat -> QuoteResult, sayOk: nat -> bool): (os: seq<EntryOutcome>)
    ensures |os| == |funny|
    ensures forall k :: 0 <= k < |funny| ==> os[k] == Step(funny[k], quoteAt(k), sayOk(k))
  {
    seq(|funny|, k requires 0 <= k < |funny| => Step(funny[k], quoteAt(k), sayOk(k)))
  }

  /** The first entry whose handling panics, if any. */
  function FirstPanic(os: seq<EntryOutcome>): (r: Option<nat>)
    ensures r.None? <==> forall k :: 0 <= k < |os| ==> !os[k].Panic?
    ensures r.Some? ==> r.value < |os| && os[r.value].Panic? && forall k :: 0 <= k < r.value ==> !os[k].Panic?
  {
    if |os| == 0 then None
    else
      var n := |os| - 1;
      assert forall k :: 0 <= k < n ==> os[..n][k] == os[k];
      match FirstPanic(os[..n])
      case Some(k) => Some(k)
      case None => if os[n].Panic? then Some(n) else None
  }

  function SentOf(o: EntryOutcome): Option<Send> {
    if o.Delivered? then Some(o.send) else None
  }

  function SkipOf(o: EntryOutcome): Option<EntryOutcome> {
    if o.FetchFailed? || o.EmptyEntry? then Some(o) else None
  }

  /** The outcomes of the entries a tick handles: all of them, or those before the first panic. */
  function Handled(os: seq<EntryOutcome>): (hs: seq<EntryOutcome>)
    ensures |hs| <= |os| && hs == os[..|hs|]
    ensures forall k :: 0 <= k < |hs| ==> !hs[k].Panic?
  {
    match FirstPanic(os)
    case None => os
    case Some(k) => os[..k]
  }

  /** Every handled entry that neither panics nor sends is counted as skipped. */
  lemma {:induction false} SendsAndSkips(hs: seq<EntryOutcome>)
    requires forall k :: 0 <= k < |hs| ==> !hs[k].Panic?
    ensures |FilterMap(hs, SentOf)| + |FilterMap(hs, SkipOf)| == |hs|
  {
    if |hs| > 0 {
      SendsAndSkips(hs[..|hs| - 1]);
    }
  }

  /** The plan after handling one more entry, number `k`, whose outcome is `o`. */
  function Advance(p: Plan, o: EntryOutcome, k: nat): Plan {
    match o
    case Panic(reason) => Plan(p.sends, p.fetchCalls + 1, p.skipped, TaskPanicked(k, reason))
    case Delivered(send) => Plan(p.sends + [send], p.fetchCalls + 1, p.skipped, p.end)
    case _ => Plan(p.sends, p.fetchCalls + 1, p.skipped + 1, p.end)
  }

  /** A tick as the loop runs it: entry after entry, stopping at the first panic. */
  function Run(os: seq<EntryOutcome>): Plan {
    if |os| == 0 then Plan([], 0, 0, Completed)
    else
      var n := |os| - 1;
      var p := Run(os[..n]);
      if p.end.TaskPanicked? then p else Advance(p, os[n], n)
  }

  /** The plan written out directly: what is sent, counted and reached, up to the first panic. */
  function ClosedPlan(os: seq<EntryOutcome>): Plan {
    match FirstPanic(os)
    case None => Plan(FilterMap(os, SentOf), |os|, |FilterMap(os, SkipOf)|, Completed)
    case Some(k) => Plan(FilterMap(os[..k], SentOf), k + 1, |FilterMap(os[..k], SkipOf)|, TaskPanicked(k, os[k].reason))
  }

  /** Once a tick has panicked, later entries change nothing. */
  lemma {:induction false} RunStaysPanicked(os: seq<EntryOutcome>, m: nat)
    requires m <= |os| && Run(os[..m]).end.TaskPanicked?
    ensures Run(os) == Run(os[..m])
  {
    if m < |os| {
      var n := |os| - 1;
      assert os[..n][..m] == os[..m];
      RunStaysPanicked(os[..n], m);
    } else {
      assert os[..m] == os;
    }
  }

  lemma ClosedPlanSnoc(os: seq<EntryOutcome>)
    requires |os| > 0
    ensures var n := |os| - 1;
            var p := ClosedPlan(os[..n]);
            ClosedPlan(os) == if p.end.TaskPanicked? then p else Advance(p, os[n], n)
  {
    var n := |os| - 1;
    var pre := os[..n];
    match FirstPanic(pre)
    case Some(k) =>
      assert pre[..k] == os[..k];
    case None =>
      if !os[n].Panic? {
        assert pre + [os[n]] == os;
        FilterMapSnoc(pre, os[n], SentOf);
        FilterMapSnoc(pre, os[n], SkipOf);
      }
  }

  /** The loop's entry-by-entry plan is the directly written one. */
  lemma {:induction false} RunIsClosedPlan(os: seq<EntryOutcome>)
    ensures Run(os) == ClosedPlan(os)
  {
    if |os| > 0 {
      RunIsClosedPlan(os[..|os| - 1]);
      ClosedPlanSnoc(os);
    }
  }

  /**
   * The delivery plan of one tick. Without a snapshot nothing is fetched or
   * sent; otherwise one fetch is made per entry handled, empty entries
   * included, every handled entry either sends, is skipped, or is the one
   * whose panic ends the spawned task, and only a bad channel id or a failed send
   * ends it early.
   */
  function PlanOf(snapshot: Option<Subscriber>, quoteAt: nat -> QuoteResult, sayOk: nat -> bool): (p: Plan)
    ensures snapshot.None? ==> p.fetchCalls == 0 && p.sends == [] && p.end.Completed?
    ensures snapshot.Some? ==> p.fetchCalls <= |snapshot.value.funny|
    ensures snapshot.Some? && p.end.Completed? ==> p.fetchCalls == |snapshot.value.funny|
    ensures p.end.TaskPanicked? ==> p.fetchCalls == p.end.entry + 1 && (p.end.reason == NotU64 || p.end.reason == DeliveryFailed)
    ensures p.fetchCalls == |p.sends| + p.skipped + (if p.end.TaskPanicked? then 1 else 0)
  {
    match snapshot
    case None => Plan([], 0, 0, Completed)
    case Some(subscriber) =>
      var os := Outcomes(subscriber.funny, quoteAt, sayOk);
      RunIsClosedPlan(os);
      SendsAndSkips(Handled(os));
      Run(os)
  }

  /**
   * The body of the loop for one entry, after its quote has been fetched:
   * report a fetch error, skip an empty entry, otherwise parse the channel id
   * and send the formatted quote there.
   */
  method HandleEntry(channels: string, fetched: QuoteResult, said: bool) returns (outcome: EntryOutcome)
    ensures outcome == Step(channels, fetched, said)
  {
    match fetched {
      case Ok((quote, author)) =>
        if |channels| == 0 {
          return EmptyEntry;
        }
        var message := Message(quote, author);
        var chid := ParseU64(channels);
        if chid.None? {
          return Panic(NotU64);
        }
        if !said {
          return Panic(DeliveryFailed);
        }
        return Delivered(Send(chid.value, message));
      case Err(why) =>
        return FetchFailed(why);
    }
  }

  /** The loop of the broadcast task, once: the body run for every entry of `funny`. */
  method Tick(snapshot: Option<Subscriber>, quoteAt: nat -> QuoteResult, sayOk: nat -> bool) returns (p: Plan)
    ensures p == PlanOf(snapshot, quoteAt, sayOk)
  {
    if snapshot.None? {
      return Plan([], 0, 0, Completed);
    }
    var funny := snapshot.value.funny;
    ghost var os := Outcomes(funny, quoteAt, sayOk);
    var sends: seq<Send> := [];
    var calls, skipped := 0, 0;
    for i := 0 to |funny|
      invariant calls == i
      invariant Run(os[..i]) == Plan(sends, calls, skipped, Completed)
    {
      var fetched := quoteAt(i);
      calls := calls + 1;
      var outcome := HandleEntry(funny[i], fetched, sayOk(i));
      assert os[i] == outcome;
      assert os[..i + 1][..i] == os[..i];
      match outcome {
        case Panic(reason) =>
          RunStaysPanicked(os, i + 1);
          return Plan(sends, calls, skipped, TaskPanicked(i, reason));
        case Delivered(send) =>
          sends := sends + [send];
        case _ =>
          skipped := skipped + 1;
      }
    }
    assert os[..|funny|] == os;
    p := Plan(sends, calls, skipped, Completed);
  }

  // ---------------------------------------------------------------- properties of a tick

  /**
   * What a tick sends is what its handled entries send; the handled entries
   * are all of them, or those before the entry whose panic ends the tick.
   */
  lemma HandledPlan(os: seq<EntryOutcome>)
    ensures var p := Run(os);
            var hs := Handled(os);
            && p.sends == FilterMap(hs, SentOf)
            && (p.end.Completed? ==> |hs| == |os| == p.fetchCalls)
            && (p.end.TaskPanicked? ==> |hs| == p.end.entry < |os| && os[|hs|].Panic?)
  {
    RunIsClosedPlan(os);
  }

  /**
   * An entry the tick reaches sends exactly when its outcome is a delivery,
   * ends the tick exactly when its outcome is a panic, and otherwise lets the
   * tick reach the next entry.
   */
  lemma ReachedEntry(os: seq<EntryOutcome>, k: nat)
    requires k < Run(os).fetchCalls
    ensures k < |os|
    ensures k in Picked(Handled(os), SentOf) <==> os[k].Delivered?
    ensures os[k].Panic? <==> Run(os).end.TaskPanicked? && Run(os).end.entry == k
    ensures !os[k].Panic? && k + 1 < |os| ==> k + 1 < Run(os).fetchCalls
  {
    RunIsClosedPlan(os);
    var hs := Handled(os);
    PickedAt(hs, SentOf, k);
    match FirstPanic(os)
    case None =>
      assert hs == os;
    case Some(e) =>
      assert hs == os[..e];
      if k < e {
        assert hs[k] == os[k];
      } else {
        assert k == e;
      }
  }

  /** The `j`-th send of a tick is the delivery of entry `Picked(...)[j]`, which the tick reached. */
  lemma SentAt(os: seq<EntryOutcome>, j: nat)
    requires j < |Run(os).sends|
    ensures |Picked(Handled(os), SentOf)| == |Run(os).sends|
    ensures var k := Picked(Handled(os), SentOf)[j];
            k < Run(os).fetchCalls && k < |os| && os[k] == Delivered(Run(os).sends[j])
  {
    RunIsClosedPlan(os);
    var hs := Handled(os);
    assert Run(os).sends == FilterMap(hs, SentOf) && |hs| <= Run(os).fetchCalls by {
      match FirstPanic(os)
      case None =>
        assert hs == os;
      case Some(e) =>
        assert hs == os[..e];
    }
    PickedLength(hs, SentOf);
    PickedValueAt(hs, SentOf, j);
    var k := Picked(hs, SentOf)[j];
    assert hs[k] == os[k];
  }

  /**
   * The `j`-th send of a tick comes from entry `Picked(...)[j]`, which the tick
   * reached and delivered to, and it carries that entry's parsed channel id
   * and formatted quote.
   */
  lemma SendOrigin(subscriber: Subscriber, quoteAt: nat -> QuoteResult, sayOk: nat -> bool, j: nat)
    requires j < |PlanOf(Some(subscriber), quoteAt, sayOk).sends|
    ensures |Picked(Handled(Outcomes(subscriber.funny, quoteAt, sayOk)), SentOf)| == |PlanOf(Some(subscriber), quoteAt, sayOk).sends|
    ensures var funny := subscriber.funny;
            var p := PlanOf(Some(subscriber), quoteAt, sayOk);
            var k := Picked(Handled(Outcomes(funny, quoteAt, sayOk)), SentOf)[j];
            && k < p.fetchCalls
            && Delivers(funny[k], quoteAt(k), sayOk(k))
            && p.sends[j] == Send(ParseU64(funny[k]).value, Message(quoteAt(k).value.0, quoteAt(k).value.1))
  {
    SentAt(Outcomes(subscriber.funny, quoteAt, sayOk), j);
  }

  /**
   * Sends go out in the order of `funny`, at most one per entry, and an entry
   * the tick reaches sends exactly when it is delivered to.
   */
  lemma SendsInOrder(subscriber: Subscriber, quoteAt: nat -> QuoteResult, sayOk: nat -> bool)
    ensures var funny := subscriber.funny;
            var p := PlanOf(Some(subscriber), quoteAt, sayOk);
            var ix := Picked(Handled(Outcomes(funny, quoteAt, sayOk)), SentOf);
            && (forall i, j :: 0 <= i < j < |ix| ==> ix[i] < ix[j])
            && (forall k :: 0 <= k < p.fetchCalls ==> (k in ix <==> Delivers(funny[k], quoteAt(k), sayOk(k))))
  {
    var os := Outcomes(subscriber.funny, quoteAt, sayOk);
    PickedIncreasing(Handled(os), SentOf);
    forall k | 0 <= k < PlanOf(Some(subscriber), quoteAt, sayOk).fetchCalls
      ensures k in Picked(Handled(os), SentOf) <==> Delivers(subscriber.funny[k], quoteAt(k), sayOk(k))
    {
      ReachedEntry(os, k);
    }
  }

  /**
   * An empty entry, or one whose fetch failed, sends nothing and does not
   * stop the tick: when the tick reaches it, the tick goes on to the next entry.
   */
  lemma SkipDoesNotStop(subscriber: Subscriber, quoteAt: nat -> QuoteResult, sayOk: nat -> bool, k: nat)
    requires k < PlanOf(Some(subscriber), quoteAt, sayOk).fetchCalls
    requires k < |subscriber.funny| && (|subscriber.funny[k]| == 0 || quoteAt(k).Err?)
    ensures var p := PlanOf(Some(subscriber), quoteAt, sayOk);
            && !(p.end.TaskPanicked? && p.end.entry == k)
            && (k + 1 < |subscriber.funny| ==> k + 1 < p.fetchCalls)
            && k !in Picked(Handled(Outcomes(subscriber.funny, quoteAt, sayOk)), SentOf)
  {
    ReachedEntry(Outcomes(subscriber.funny, quoteAt, sayOk), k);
  }

  /**
   * A non-empty entry whose fetch succeeded but whose text is not a `u64`, or
   * whose send fails, ends the tick there: no later entry is fetched or sent
   * to, and the sends are exactly those the entries before it make.
   */
  lemma AbortStopsTick(subscriber: Subscriber, quoteAt: nat -> QuoteResult, sayOk: nat -> bool, k: nat)
    requires k < |subscriber.funny| && k < PlanOf(Some(subscriber), quoteAt, sayOk).fetchCalls
    requires |subscriber.funny[k]| > 0 && quoteAt(k).Ok?
    requires ParseU64(subscriber.funny[k]).None? || !sayOk(k)
    ensures var p := PlanOf(Some(subscriber), quoteAt, sayOk);
            && p.end == TaskPanicked(k, if ParseU64(subscriber.funny[k]).None? then NotU64 else DeliveryFailed)
            && p.fetchCalls == k + 1
            && p.sends == PlanOf(Some(Subscriber(subscriber.funny[..k])), quoteAt, sayOk).sends
  {
    var funny := subscriber.funny;
    var os := Outcomes(funny, quoteAt, sayOk);
    var os' := Outcomes(funny[..k], quoteAt, sayOk);
    RunIsClosedPlan(os);
    RunIsClosedPlan(os');
    assert os[k].Panic?;
    assert FirstPanic(os) == Some(k);
    assert os' == os[..k];
    assert FirstPanic(os') == None;
  }

  /** Three entries: an empty one, a channel id, and text that is not a number. */
  lemma ExampleTick()
    ensures PlanOf(Some(Subscriber(["", "42", "x"])), k => Ok(("D", "A")), k => true)
            == Plan([Send(42, "D\n-_A_")], 3, 1, TaskPanicked(2, NotU64))
  {
    var funny := ["", "42", "x"];
    var quoteAt: nat -> QuoteResult := k => Ok(("D", "A"));
    var sayOk: nat -> bool := k => true;
    var os := Outcomes(funny, quoteAt, sayOk);
    assert Value("42") == 42 by {
      assert "42"[..1] == "4";
    }
    assert ParseU64("42") == Some(42);
    assert !IsDigit("x"[0]);
    assert ParseU64("x") == None;
    MessageExample();
    assert os[0] == EmptyEntry;
    assert os[1] == Delivered(Send(42, "D\n-_A_"));
    assert os[2] == Panic(NotU64);
    var pre := [EmptyEntry, Delivered(Send(42, "D\n-_A_"))];
    assert os[..2] == pre;
    assert pre[..1] == [EmptyEntry];
    assert FirstPanic(os) == Some(2);
    assert FilterMap(pre, SentOf) == [Send(42, "D\n-_A_")];
    assert FilterMap(pre, SkipOf) == [EmptyEntry];
    RunIsClosedPlan(os);
  }
}
