/**
  The input-method event protocol. Key messages wait in a queue until the engine
  answers them; what the graphics worker takes out is the in-order rendering of the
  answers, across session loss and reset.
 */
module InputMethod {
  import opened Common
  import opened Utf8

  datatype Kind = Key | Candidate | Page | Layout

  datatype Action = Pass | Consumed | Commit

  /** One queued event. `tapped` is the flag of a verified solo Shift release. */
  datatype Event = Event(kind: Kind, message: nat, value: nat, tapped: bool, sequence: nat, context: nat, revision: nat)

  /** The engine's answer; `chars` are the packed scalars of a committed text. */
  datatype Decision = Decision(action: Action, chars: seq<nat>)

  /** A queued event; `chars` are the packed scalars that a commit still has to deliver. */
  datatype Item = Item(event: Event, fetched: bool, replied: bool, action: Action, chars: seq<nat>)

  /** What the application receives. */
  datatype Delivery = Delivery(context: nat, message: nat, value: nat)

  /** History since the last reset: every queued event and the decision on it, once there is one. */
  datatype Entry = Entry(event: Event, decision: Option<Decision>)

  const MSG_CHAR := 0

  // ------------------------------------------------------ reference rendering

  function Chars(context: nat, values: seq<nat>): seq<Delivery> {
    if values == [] then [] else [Delivery(context, MSG_CHAR, values[0])] + Chars(context, values[1..])
  }

  function Original(e: Event): seq<Delivery> { [Delivery(e.context, e.message, e.value)] }

  /** PASS gives a key once, COMMIT its scalars and then a tapped Shift release, CONSUMED nothing. */
  function Render(e: Event, d: Decision): seq<Delivery> {
    match d.action
    case Pass => if e.kind == Key then Original(e) else []
    case Commit => Chars(e.context, d.chars) + (if e.kind == Key && e.tapped then Original(e) else [])
    case Consumed => []
  }

  /** An event without an answer counts as passed through, which is what losing the engine makes of it. */
  function RenderEntry(x: Entry): seq<Delivery> {
    if x.decision.Some? then Render(x.event, x.decision.value) else Render(x.event, Decision(Pass, []))
  }

  function RenderLog(log: seq<Entry>): seq<Delivery> {
    if log == [] then [] else RenderLog(log[..|log| - 1]) + RenderEntry(log[|log| - 1])
  }

  /** What a queued event still owes the application. */
  function Owed(p: Item): seq<Delivery> {
    if p.replied then Render(p.event, Decision(p.action, p.chars)) else Render(p.event, Decision(Pass, []))
  }

  function RenderQueue(q: seq<Item>): seq<Delivery> {
    if q == [] then [] else RenderQueue(q[..|q| - 1]) + Owed(q[|q| - 1])
  }

  // ---------------------------------------------------------------- invariant

  predicate Matches(p: Item, x: Entry) {
    p.event == x.event && p.replied == x.decision.Some? && (p.replied ==> x.decision.value.action == p.action)
  }

  /** Nothing of a committed text has gone out yet. */
  predicate Untouched(p: Item, x: Entry) {
    p.replied && x.decision.Some? ==> p.chars == x.decision.value.chars
  }

  /** The first `answered` events have replies, no others do, and at most the next one has been fetched. */
  predicate Ordered(q: seq<Item>, answered: nat) {
    && answered <= |q|
    && (forall i :: 0 <= i < |q| ==> (q[i].replied <==> i < answered))
    && (forall i :: answered < i < |q| ==> !q[i].fetched)
  }

  /** The queue and the open part of the log list the same events. */
  predicate Tracks(q: seq<Item>, open: seq<Entry>) {
    && |q| == |open|
    && (forall i :: 0 <= i < |q| ==> Matches(q[i], open[i]))
    && (forall i :: 1 <= i < |q| ==> Untouched(q[i], open[i]))
  }

  function OwedByHead(q: seq<Item>): seq<Delivery> { if q == [] then [] else Owed(q[0]) }

  function RenderHead(open: seq<Entry>): seq<Delivery> { if open == [] then [] else RenderEntry(open[0]) }

  /**
    The log is `past + open`: `past` has been delivered exactly, `open` is still queued
    and `done` is what the head of the queue has delivered so far.
   */
  predicate Consistent(q: seq<Item>, answered: nat, past: seq<Entry>, open: seq<Entry>, emitted: seq<Delivery>,
                       done: seq<Delivery>) {
    Ordered(q, answered) && Tracks(q, open) && Settled(past) && Accounted(q, past, open, emitted, done)
  }

  predicate Settled(past: seq<Entry>) {
    forall i :: 0 <= i < |past| ==> past[i].decision.Some?
  }

  predicate Accounted(q: seq<Item>, past: seq<Entry>, open: seq<Entry>, emitted: seq<Delivery>, done: seq<Delivery>) {
    emitted == RenderLog(past) + done && done + OwedByHead(q) == RenderHead(open)
  }

  /** Conservation: what was emitted and what is still queued make up the rendering of all queued events. */
  lemma Conservation(q: seq<Item>, answered: nat, past: seq<Entry>, open: seq<Entry>, emitted: seq<Delivery>,
                     done: seq<Delivery>)
    requires Consistent(q, answered, past, open, emitted, done)
    ensures emitted + RenderQueue(q) == RenderLog(past + open)
  {
    QueueRendering(q, open, done);
    RenderLogAppend(past, open);
    Assoc(RenderLog(past), done, RenderQueue(q));
  }

  lemma Assoc(a: seq<Delivery>, b: seq<Delivery>, c: seq<Delivery>)
    ensures (a + b) + c == a + (b + c)
  {}

  lemma RenderLogSnoc(a: seq<Entry>, x: Entry)
    ensures RenderLog(a + [x]) == RenderLog(a) + RenderEntry(x)
  {}

  lemma {:induction false} RenderLogAppend(a: seq<Entry>, b: seq<Entry>)
    ensures RenderLog(a + b) == RenderLog(a) + RenderLog(b)
  {
    if b == [] {
      assert a + b == a;
    } else {
      var c, x := b[..|b| - 1], b[|b| - 1];
      assert b == c + [x] && a + b == (a + c) + [x];
      RenderLogAppend(a, c);
      RenderLogSnoc(a + c, x);
      RenderLogSnoc(c, x);
      Assoc(RenderLog(a), RenderLog(c), RenderEntry(x));
    }
  }

  lemma {:induction false} QueueRendering(q: seq<Item>, open: seq<Entry>, done: seq<Delivery>)
    requires Tracks(q, open) && done + OwedByHead(q) == RenderHead(open)
    ensures done + RenderQueue(q) == RenderLog(open)
  {
    hide Owed, RenderEntry, RenderQueue, RenderLog;
    if |q| == 0 {
      NothingRendered();
    } else {
      var n := |q| - 1;
      var front, last, c, x := q[..n], q[n], open[..n], open[n];
      assert q == front + [last] && open == c + [x];
      RenderLogSnoc(c, x);
      RenderQueueSnoc(front, last);
      if n == 0 {
        NothingRendered();
      } else {
        QueueRendering(front, c, done);
        OwedIsEntry(last, x);
        Assoc(done, RenderQueue(front), Owed(last));
      }
    }
  }

  lemma NothingRendered()
    ensures RenderLog([]) == [] && RenderQueue([]) == []
  {}

  lemma RenderQueueSnoc(q: seq<Item>, p: Item)
    ensures RenderQueue(q + [p]) == RenderQueue(q) + Owed(p)
  {}

  /** An event none of whose scalars have gone out owes its whole rendering. */
  lemma OwedIsEntry(p: Item, x: Entry)
    requires Matches(p, x) && Untouched(p, x)
    ensures Owed(p) == RenderEntry(x)
  {}

  // ------------------------------------------------------------- single steps

  /** Queueing one event appends it to the queue and to the log. */
  lemma QueueStep(q: seq<Item>, answered: nat, past: seq<Entry>, open: seq<Entry>, emitted: seq<Delivery>,
                  done: seq<Delivery>, e: Event)
    requires Consistent(q, answered, past, open, emitted, done)
    ensures Consistent(q + [Item(e, false, false, Pass, [])], answered, past, open + [Entry(e, None)], emitted, done)
  {
    if q == [] { OwedIsEntry(Item(e, false, false, Pass, []), Entry(e, None)); }
  }

  /** Deciding the first unanswered event. */
  lemma DecideStep(q: seq<Item>, answered: nat, past: seq<Entry>, open: seq<Entry>, emitted: seq<Delivery>,
                   done: seq<Delivery>, d: Decision)
    requires Consistent(q, answered, past, open, emitted, done)
    requires answered < |q|
    ensures var k := answered;
            Consistent(q[k := q[k].(replied := true, action := d.action, chars := d.chars)], k + 1, past,
                       open[k := Entry(q[k].event, Some(d))], emitted, done)
  {
    var k := answered;
    var p := q[k].(replied := true, action := d.action, chars := d.chars);
    if k == 0 {
      OwedIsEntry(q[0], open[0]);
      assert |done| + |Owed(q[0])| == |RenderEntry(open[0])|;
      OwedIsEntry(p, Entry(q[0].event, Some(d)));
    }
  }

  /** Handing the first unanswered event to the engine. */
  lemma FetchStep(q: seq<Item>, answered: nat, past: seq<Entry>, open: seq<Entry>, emitted: seq<Delivery>,
                  done: seq<Delivery>)
    requires Consistent(q, answered, past, open, emitted, done)
    requires answered < |q|
    ensures Consistent(q[answered := q[answered].(fetched := true)], answered, past, open, emitted, done)
  {}

  /** Delivering the next scalar of a committed text. */
  lemma CharStep(q: seq<Item>, answered: nat, past: seq<Entry>, open: seq<Entry>, emitted: seq<Delivery>,
                 done: seq<Delivery>)
    requires Consistent(q, answered, past, open, emitted, done)
    requires answered > 0 && q[0].action == Commit && q[0].chars != []
    ensures var d := Delivery(q[0].event.context, MSG_CHAR, q[0].chars[0]);
            Consistent(q[0 := q[0].(chars := q[0].chars[1..])], answered, past, open, emitted + [d], done + [d])
  {
    var p := q[0];
    var p' := p.(chars := p.chars[1..]);
    var d := Delivery(p.event.context, MSG_CHAR, p.chars[0]);
    assert Owed(p) == [d] + Owed(p');
    assert (done + [d]) + Owed(p') == done + Owed(p);
    assert RenderLog(past) + (done + [d]) == emitted + [d];
  }

  /** Whether retiring a replied event still delivers its original message. */
  predicate Passes(p: Item) {
    p.event.kind == Key && (p.action == Pass || (p.action == Commit && p.event.tapped))
  }

  lemma PopTracks(q: seq<Item>, answered: nat, open: seq<Entry>)
    requires Ordered(q, answered) && answered > 0 && Tracks(q, open) && q != []
    ensures Ordered(q[1..], answered - 1) && Tracks(q[1..], open[1..])
    ensures OwedByHead(q[1..]) == RenderHead(open[1..])
  {}

  /** Retiring the head: what it still owes is its original message or nothing. */
  lemma PopStep(q: seq<Item>, answered: nat, past: seq<Entry>, open: seq<Entry>, emitted: seq<Delivery>,
                done: seq<Delivery>)
    requires Consistent(q, answered, past, open, emitted, done)
    requires answered > 0 && (q[0].action == Commit ==> q[0].chars == [])
    ensures Consistent(q[1..], answered - 1, past + [open[0]], open[1..],
                       emitted + (if Passes(q[0]) then Original(q[0].event) else []), [])
  {
    PopTracks(q, answered, open);
    assert Matches(q[0], open[0]);
    PopAccounted(q, past, open, emitted, done);
  }

  lemma PopAccounted(q: seq<Item>, past: seq<Entry>, open: seq<Entry>, emitted: seq<Delivery>, done: seq<Delivery>)
    requires q != [] && open != [] && Accounted(q, past, open, emitted, done)
    requires q[0].replied && (q[0].action == Commit ==> q[0].chars == [])
    requires OwedByHead(q[1..]) == RenderHead(open[1..])
    ensures Accounted(q[1..], past + [open[0]], open[1..],
                      emitted + (if Passes(q[0]) then Original(q[0].event) else []), [])
  {
    OwedWhenSpent(q[0]);
    PopRendering(past, open[0], emitted, done, Owed(q[0]));
  }

  lemma OwedWhenSpent(p: Item)
    requires p.replied && (p.action == Commit ==> p.chars == [])
    ensures Owed(p) == if Passes(p) then Original(p.event) else []
  {}

  lemma PopRendering(past: seq<Entry>, x: Entry, emitted: seq<Delivery>, done: seq<Delivery>, owed: seq<Delivery>)
    requires emitted == RenderLog(past) + done && done + owed == RenderEntry(x)
    ensures emitted + owed == RenderLog(past + [x]) + []
  {
    RenderLogSnoc(past, x);
    Assoc(RenderLog(past), done, owed);
  }

  /** Losing the engine turns every unanswered event into PASS. */
  function Opened(q: seq<Item>): (r: seq<Item>)
    ensures |r| == |q|
    ensures forall i :: 0 <= i < |q| ==>
              r[i] == if q[i].replied then q[i] else q[i].(replied := true, action := Pass, chars := [])
  {
    seq(|q|, i requires 0 <= i < |q| =>
      if q[i].replied then q[i] else q[i].(replied := true, action := Pass, chars := []))
  }

  function OpenedLog(open: seq<Entry>): (r: seq<Entry>)
    ensures |r| == |open|
    ensures forall i :: 0 <= i < |open| ==>
              r[i] == if open[i].decision.Some? then open[i] else open[i].(decision := Some(Decision(Pass, [])))
  {
    seq(|open|, i requires 0 <= i < |open| =>
      if open[i].decision.Some? then open[i] else open[i].(decision := Some(Decision(Pass, []))))
  }

  /** Session loss answers everything and changes neither what was delivered nor what will be. */
  lemma OpenStep(q: seq<Item>, answered: nat, past: seq<Entry>, open: seq<Entry>, emitted: seq<Delivery>,
                 done: seq<Delivery>)
    requires Consistent(q, answered, past, open, emitted, done)
    ensures Consistent(Opened(q), |q|, past, OpenedLog(open), emitted, done)
    ensures RenderQueue(Opened(q)) == RenderQueue(q) && RenderLog(past + OpenedLog(open)) == RenderLog(past + open)
  {
    OpenRendering(q, past, open);
    OpenTracks(q, open);
  }

  lemma OpenTracks(q: seq<Item>, open: seq<Entry>)
    requires Tracks(q, open)
    ensures Ordered(Opened(q), |q|) && Tracks(Opened(q), OpenedLog(open))
  {}

  lemma OpenRendering(q: seq<Item>, past: seq<Entry>, open: seq<Entry>)
    ensures RenderQueue(Opened(q)) == RenderQueue(q) && RenderLog(past + OpenedLog(open)) == RenderLog(past + open)
    ensures OwedByHead(Opened(q)) == OwedByHead(q) && RenderHead(OpenedLog(open)) == RenderHead(open)
  {
    SameRendering(open, OpenedLog(open));
    RenderLogAppend(past, open);
    RenderLogAppend(past, OpenedLog(open));
    SameQueue(q, Opened(q));
  }

  lemma {:induction false} SameRendering(a: seq<Entry>, b: seq<Entry>)
    requires |a| == |b| && forall i :: 0 <= i < |a| ==> RenderEntry(a[i]) == RenderEntry(b[i])
    ensures RenderLog(a) == RenderLog(b)
  {
    if a != [] { SameRendering(a[..|a| - 1], b[..|b| - 1]); }
  }

  lemma {:induction false} SameQueue(a: seq<Item>, b: seq<Item>)
    requires |a| == |b| && forall i :: 0 <= i < |a| ==> Owed(a[i]) == Owed(b[i])
    ensures RenderQueue(a) == RenderQueue(b)
  {
    if a != [] { SameQueue(a[..|a| - 1], b[..|b| - 1]); }
  }

  // ------------------------------------------------- committed text as scalars

  /** The packed scalars of NUL-terminated text, in order, from index `i` on. */
  function Packs(text: seq<byte>, i: nat): seq<nat>
    decreases |text| - i
  {
    if i >= |text| || text[i] == 0 || ScalarLen(text[i..]) == 0 then []
    else [Pack(text[i..][..ScalarLen(text[i..])])] + Packs(text, i + ScalarLen(text[i..]))
  }

  function UnpackAll(values: seq<nat>): seq<byte> {
    if values == [] then [] else Unpack(values[0]) + UnpackAll(values[1..])
  }

  /** The packed values of a committed text, unpacked and joined, give back its bytes: one value for each scalar. */
  lemma {:induction false} CommitGivesBackText(cs: seq<int>, text: seq<byte>, i: nat)
    requires i <= |text| && AllScalars(cs) && EncodeAll(cs) + [0] <= text[i..]
    ensures UnpackAll(Packs(text, i)) == EncodeAll(cs) && |Packs(text, i)| == |cs|
    ensures forall k | 0 <= k < |cs| :: Unpack(Packs(text, i)[k]) == Encode(cs[k])
    decreases |cs|
  {
    hide Encode;
    hide ScalarLen;
    hide IsScalar;
    hide Pack;
    hide Unpack;
    if cs == [] {
      assert text[i] == text[i..][0] == (EncodeAll(cs) + [0])[0] == 0;
    } else {
      FirstOfText(cs, text[i..]);
      var first := Encode(cs[0]);
      assert text[i..][|first|..] == text[i + |first|..];
      CommitGivesBackText(cs[1..], text, i + |first|);
      EncodeShape(cs[0]);
      UnpackPack(first);
      assert Packs(text, i)[1..] == Packs(text, i + |first|);
    }
  }

  /** Character messages that type the text before its terminator, one for each scalar. */
  ghost predicate Types(ds: seq<Delivery>, context: nat, text: seq<byte>) {
    exists cs :: && AllScalars(cs) && EncodeAll(cs) + [0] <= text && |ds| == |cs|
                 && forall i | 0 <= i < |ds| ::
                      ds[i].context == context && ds[i].message == 0 && Unpack(ds[i].value) == Encode(cs[i])
  }

  lemma {:induction false} CharsAre(context: nat, values: seq<nat>)
    ensures |Chars(context, values)| == |values|
    ensures forall i | 0 <= i < |values| :: Chars(context, values)[i] == Delivery(context, 0, values[i])
  {
    if values != [] { CharsAre(context, values[1..]); }
  }

  /** A committed text is typed exactly. */
  lemma CommitTypes(text: seq<byte>, context: nat)
    requires ValidText(text)
    ensures Types(Chars(context, Packs(text, 0)), context, text)
  {
    hide Unpack, Encode, Pack, ScalarLen, Chars, Packs, UnpackAll, EncodeAll, IsScalar;
    var cs :| AllScalars(cs) && EncodeAll(cs) + [0] <= text;
    assert text[0..] == text;
    CommitGivesBackText(cs, text, 0);
    CharsAre(context, Packs(text, 0));
    var ds := Chars(context, Packs(text, 0));
    forall i | 0 <= i < |ds|
      ensures ds[i].context == context && ds[i].message == 0 && Unpack(ds[i].value) == Encode(cs[i])
    {
      assert ds[i] == Delivery(context, 0, Packs(text, 0)[i]);
    }
  }

  lemma FirstOfText(cs: seq<int>, text: seq<byte>)
    requires AllScalars(cs) && cs != [] && EncodeAll(cs) + [0] <= text
    ensures var n := |Encode(cs[0])|;
            n <= |text| && text[0] != 0 && ScalarLen(text) == n && text[..n] == Encode(cs[0])
            && EncodeAll(cs[1..]) + [0] <= text[n..]
  {
    FirstOf(cs, text);
    StartsWith(cs[0], text);
  }

  /** Valid text, scalar by scalar, from index `i` on. */
  predicate IsText(text: seq<byte>, i: nat)
    decreases |text| - i
  {
    i < |text| && (text[i] == 0 || (ScalarLen(text[i..]) > 0 && IsText(text, i + ScalarLen(text[i..]))))
  }

  /** The scalar-by-scalar reading accepts what validation accepts. */
  lemma {:induction false} ValidIsText(cs: seq<int>, text: seq<byte>, i: nat)
    requires i <= |text| && AllScalars(cs) && EncodeAll(cs) + [0] <= text[i..]
    ensures IsText(text, i)
    decreases |cs|
  {
    hide Encode;
    hide ScalarLen;
    hide IsScalar;
    if cs == [] {
      assert text[i] == text[i..][0] == (EncodeAll(cs) + [0])[0] == 0;
    } else {
      FirstOfText(cs, text[i..]);
      assert text[i..][|Encode(cs[0])|..] == text[i + |Encode(cs[0])|..];
      ValidIsText(cs[1..], text, i + |Encode(cs[0])|);
    }
  }
}
