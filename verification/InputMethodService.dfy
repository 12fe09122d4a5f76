/**
  The kernel side of the input method as it runs: a ring of 128 pending events, the
  engine session, the focus and the modifier state, changed by each locked entry point.
 */
module InputMethodService {
  import opened Common
  import opened Utf8
  import opened InputMethod
  import opened ShiftTap

  const EVENT_CAPACITY := 128
  const MODE_ENGLISH := 0

  datatype Status = OK | EPERM | EINVAL | EFAULT | EAGAIN | ESTALE | EBUSY

  datatype Focus = Focus(pid: nat, tid: nat, callback: nat, enabled: bool, password: bool)

  datatype Pending = Pending(event: Event, fetched: bool, replied: bool, action: Action, text: seq<byte>, offset: nat)

  const BLANK := Pending(Event(Key, 0, 0, false, 0, 0, 0), false, false, Pass, [], 0)

  /** The packed scalars a pending commit still has to deliver. */
  function Owing(p: Pending): seq<nat> {
    if p.replied && p.action == Commit then Packs(p.text, p.offset) else []
  }

  function ToItem(p: Pending): Item { Item(p.event, p.fetched, p.replied, p.action, Owing(p)) }

  // ------------------------------------------------------------- the ring

  function At(head: nat, i: nat): nat {
    if head + i < EVENT_CAPACITY then head + i else head + i - EVENT_CAPACITY
  }

  /** The ring, read from `head`, holds the queue. */
  predicate Ring(ring: seq<Pending>, head: nat, queue: seq<Pending>) {
    && |ring| == EVENT_CAPACITY && head < EVENT_CAPACITY && |queue| <= EVENT_CAPACITY
    && forall i :: 0 <= i < |queue| ==> ring[At(head, i)] == queue[i]
  }

  lemma RingSet(ring: seq<Pending>, head: nat, queue: seq<Pending>, k: nat, p: Pending)
    requires Ring(ring, head, queue) && k < |queue|
    ensures Ring(ring[At(head, k) := p], head, queue[k := p])
  {}

  lemma RingAppend(ring: seq<Pending>, head: nat, queue: seq<Pending>, p: Pending)
    requires Ring(ring, head, queue) && |queue| < EVENT_CAPACITY
    ensures Ring(ring[At(head, |queue|) := p], head, queue + [p])
  {}

  lemma RingPop(ring: seq<Pending>, head: nat, queue: seq<Pending>)
    requires Ring(ring, head, queue) && queue != []
    ensures Ring(ring, At(head, 1), queue[1..])
  {}

  // ----------------------------------------------------- the state invariant

  /**
    What happened since the last reset: the queue's `items`, of which the first `answered` have replies, and
    the log `past + open`.
   */
  datatype History = History(items: seq<Item>, answered: nat, past: seq<Entry>, open: seq<Entry>,
                             emitted: seq<Delivery>, done: seq<Delivery>) {
    function Log(): seq<Entry> { past + open }
  }

  const FRESH := History([], 0, [], [], [], [])

  /** A committed text is valid from where its delivery stands, so every later step makes progress. */
  predicate PendingOk(p: Pending, x: Item, context: nat, session: nat) {
    && x == ToItem(p)
    && (p.replied && p.action == Commit ==> IsText(p.text, p.offset))
    && (!p.replied ==> p.offset == 0 && session != 0)
    && p.event.context == context
  }

  predicate QueueOk(queue: seq<Pending>, items: seq<Item>, context: nat, session: nat) {
    && |queue| == |items|
    && forall i {:trigger PendingOk(queue[i], items[i], context, session)} ::
         0 <= i < |queue| ==> PendingOk(queue[i], items[i], context, session)
  }

  predicate Numbered(queue: seq<Pending>, next: nat) {
    forall i :: 0 <= i < |queue| ==> queue[i].event.sequence + |queue| == next + i
  }

  predicate Good(queue: seq<Pending>, h: History, context: nat, next: nat, session: nat) {
    && QueueOk(queue, h.items, context, session) && Numbered(queue, next)
    && Consistent(h.items, h.answered, h.past, h.open, h.emitted, h.done)
  }

  lemma GoodEmpty(context: nat, next: nat, session: nat)
    ensures Good([], FRESH, context, next, session)
  {}

  lemma QueueOkSet(queue: seq<Pending>, items: seq<Item>, context: nat, session: nat, k: nat, p: Pending)
    requires QueueOk(queue, items, context, session) && k < |queue| && PendingOk(p, ToItem(p), context, session)
    ensures QueueOk(queue[k := p], items[k := ToItem(p)], context, session)
  {}

  function Queued(h: History, e: Event): History {
    h.(items := h.items + [Item(e, false, false, Pass, [])], open := h.open + [Entry(e, None)])
  }

  lemma GoodQueued(queue: seq<Pending>, h: History, context: nat, next: nat, session: nat, e: Event)
    requires Good(queue, h, context, next, session) && session != 0 && e.context == context && e.sequence == next
    ensures Good(queue + [Pending(e, false, false, Pass, [], 0)], Queued(h, e), context, next + 1, session)
  {
    var p := Pending(e, false, false, Pass, [], 0);
    QueueStep(h.items, h.answered, h.past, h.open, h.emitted, h.done, e);
    var queue', items' := queue + [p], h.items + [ToItem(p)];
    forall i | 0 <= i <= |queue| ensures PendingOk(queue'[i], items'[i], context, session) {
      assert i < |queue| ==> PendingOk(queue[i], h.items[i], context, session);
    }
  }

  /** What the engine's answer means. */
  function Meaning(action: Action, text: seq<byte>): Decision {
    Decision(action, if action == Commit then Packs(text, 0) else [])
  }

  /** The history after the first unanswered event is answered. */
  function Decided(h: History, d: Decision): History
    requires h.answered < |h.items| && |h.items| == |h.open|
  {
    var k := h.answered;
    h.(items := h.items[k := h.items[k].(replied := true, action := d.action, chars := d.chars)], answered := k + 1,
       open := h.open[k := Entry(h.items[k].event, Some(d))])
  }

  lemma GoodDecided(queue: seq<Pending>, h: History, context: nat, next: nat, session: nat, action: Action,
                    text: seq<byte>)
    requires Good(queue, h, context, next, session) && h.answered < |queue| && (action == Commit ==> IsText(text, 0))
    ensures |h.items| == |h.open| == |queue| && !queue[h.answered].replied
    ensures Good(queue[h.answered := queue[h.answered].(replied := true, action := action, text := text)],
                 Decided(h, Meaning(action, text)), context, next, session)
  {
    var k := h.answered;
    assert PendingOk(queue[k], h.items[k], context, session);
    var p := queue[k].(replied := true, action := action, text := text);
    QueueOkSet(queue, h.items, context, session, k, p);
    DecideStep(h.items, k, h.past, h.open, h.emitted, h.done, Meaning(action, text));
  }

  function Fetched(h: History): History
    requires h.answered < |h.items|
  {
    h.(items := h.items[h.answered := h.items[h.answered].(fetched := true)])
  }

  lemma GoodFetched(queue: seq<Pending>, h: History, context: nat, next: nat, session: nat)
    requires Good(queue, h, context, next, session) && h.answered < |queue|
    ensures Good(queue[h.answered := queue[h.answered].(fetched := true)], Fetched(h), context, next, session)
  {
    var k := h.answered;
    assert PendingOk(queue[k], h.items[k], context, session);
    QueueOkSet(queue, h.items, context, session, k, queue[k].(fetched := true));
    FetchStep(h.items, k, h.past, h.open, h.emitted, h.done);
  }

  /** The history after the head delivers the next scalar of its text. */
  function Typed(h: History, d: Delivery): History
    requires h.items != [] && h.items[0].chars != []
  {
    h.(items := h.items[0 := h.items[0].(chars := h.items[0].chars[1..])], emitted := h.emitted + [d],
       done := h.done + [d])
  }

  lemma GoodChar(queue: seq<Pending>, h: History, context: nat, next: nat, session: nat)
    requires Good(queue, h, context, next, session) && queue != []
    requires queue[0].replied && queue[0].action == Commit && queue[0].offset < |queue[0].text|
    requires queue[0].text[queue[0].offset] != 0
    ensures h.items != [] && h.items[0].chars != []
    ensures var p := queue[0]; var rest := p.text[p.offset..]; var n := ScalarLen(rest);
            && n > 0
            && Good(queue[0 := p.(offset := p.offset + n)], Typed(h, Delivery(context, MSG_CHAR, Pack(rest[..n]))),
                    context, next, session)
  {
    var p := queue[0];
    assert PendingOk(p, h.items[0], context, session);
    var n := ScalarLen(p.text[p.offset..]);
    var p' := p.(offset := p.offset + n);
    assert Owing(p) == [Pack(p.text[p.offset..][..n])] + Owing(p');
    assert Owing(p)[1..] == Owing(p');
    QueueOkSet(queue, h.items, context, session, 0, p');
    CharStep(h.items, h.answered, h.past, h.open, h.emitted, h.done);
  }

  /** The history after the head is retired. */
  function Popped(h: History): History
    requires h.items != [] && h.open != [] && h.answered > 0
  {
    History(h.items[1..], h.answered - 1, h.past + [h.open[0]], h.open[1..],
            h.emitted + (if Passes(h.items[0]) then Original(h.items[0].event) else []), [])
  }

  lemma GoodPopped(queue: seq<Pending>, h: History, context: nat, next: nat, session: nat)
    requires Good(queue, h, context, next, session) && queue != [] && queue[0].replied
    requires queue[0].action == Commit ==> queue[0].offset < |queue[0].text| && queue[0].text[queue[0].offset] == 0
    ensures h.items != [] && h.open != [] && h.answered > 0 && h.items[0].event == queue[0].event
    ensures Passes(h.items[0]) <==>
            queue[0].event.kind == Key
            && (queue[0].action == Pass || (queue[0].action == Commit && queue[0].event.tapped))
    ensures Good(queue[1..], Popped(h), context, next, session)
  {
    assert PendingOk(queue[0], h.items[0], context, session);
    assert Owing(queue[0]) == [];
    PopStep(h.items, h.answered, h.past, h.open, h.emitted, h.done);
    var queue', items' := queue[1..], h.items[1..];
    forall i | 0 <= i < |queue'| ensures PendingOk(queue'[i], items'[i], context, session) {
      assert PendingOk(queue[i + 1], h.items[i + 1], context, session);
    }
  }

  function OpenedQueue(queue: seq<Pending>): (r: seq<Pending>)
    ensures |r| == |queue|
    ensures forall i :: 0 <= i < |queue| ==>
              r[i] == if queue[i].replied then queue[i] else queue[i].(replied := true, action := Pass)
  {
    seq(|queue|, i requires 0 <= i < |queue| =>
      if queue[i].replied then queue[i] else queue[i].(replied := true, action := Pass))
  }

  /** The history after session loss. */
  function OpenedHistory(h: History): History {
    h.(items := Opened(h.items), answered := |h.items|, open := OpenedLog(h.open))
  }

  lemma GoodOpened(queue: seq<Pending>, h: History, context: nat, next: nat, session: nat)
    requires Good(queue, h, context, next, session)
    ensures Good(OpenedQueue(queue), OpenedHistory(h), context, next, 0) && Settled(h.past)
    ensures RenderLog(OpenedHistory(h).Log()) == RenderLog(h.Log())
  {
    hide Consistent;
    hide RenderLog;
    OpenStep(h.items, h.answered, h.past, h.open, h.emitted, h.done);
    forall i | 0 <= i < |queue| ensures PendingOk(OpenedQueue(queue)[i], Opened(h.items)[i], context, 0) {
      assert PendingOk(queue[i], h.items[i], context, session);
    }
  }

  /** Answers stand, and every unanswered key is to be delivered as it came. */
  ghost predicate PassedThrough(was: seq<Entry>, now: seq<Entry>) {
    && |now| == |was|
    && forall i | 0 <= i < |was| ::
         var e := was[i].event;
         && now[i].event == e && now[i].decision.Some? && (was[i].decision.Some? ==> now[i] == was[i])
         && (was[i].decision.None? ==>
               RenderEntry(now[i]) == if e.kind == Key then [Delivery(e.context, e.message, e.value)] else [])
  }

  lemma OpenedPasses(h: History)
    requires Settled(h.past)
    ensures PassedThrough(h.Log(), OpenedHistory(h).Log())
  {}

  /** What an invariant says about the head of a nonempty queue. */
  lemma HeadOk(queue: seq<Pending>, h: History, context: nat, next: nat, session: nat)
    requires Good(queue, h, context, next, session) && queue != []
    ensures h.items != [] && h.open != [] && queue[0].event.context == context
    ensures queue[0].replied && queue[0].action == Commit ==> queue[0].offset < |queue[0].text|
    ensures !queue[0].replied ==> session != 0
  {
    assert PendingOk(queue[0], h.items[0], context, session);
  }

  lemma GoodPassed(queue: seq<Pending>, h: History, context: nat, next: nat, e: Event)
    requires Good(queue, h, context, next, 0) && e.context == context && e.sequence == next
    ensures h.answered == |queue| == |h.items| == |h.open|
    ensures Good(queue + [Pending(e, false, true, Pass, [], 0)], Decided(Queued(h, e), Meaning(Pass, [])), context,
                 next + 1, 0)
  {
    AllAnswered(queue, h, context, next);
    RaiseSession(queue, h, context, next, 1);
    GoodQueued(queue, h, context, next, 1, e);
    var queue' := queue + [Pending(e, false, false, Pass, [], 0)];
    GoodDecided(queue', Queued(h, e), context, next + 1, 1, Pass, []);
    var k := |queue|;
    var queue'' := queue + [Pending(e, false, true, Pass, [], 0)];
    assert queue'[k := queue'[k].(replied := true, action := Pass, text := [])] == queue'';
    var h'' := Decided(Queued(h, e), Meaning(Pass, []));
    forall i | 0 <= i < |queue''| ensures PendingOk(queue''[i], h''.items[i], context, 0) {
      assert PendingOk(queue''[i], h''.items[i], context, 1);
      assert i < k ==> PendingOk(queue[i], h.items[i], context, 0);
    }
  }

  /** How one slot stands to the answered prefix. */
  lemma SlotOk(queue: seq<Pending>, h: History, context: nat, next: nat, session: nat, i: nat)
    requires Good(queue, h, context, next, session) && i < |queue|
    ensures |h.items| == |h.open| == |queue|
    ensures h.items[i].event == queue[i].event == h.open[i].event
    ensures h.open[i].decision.Some? <==> i < h.answered
    ensures queue[i].replied <==> i < h.answered
    ensures queue[i].fetched && !queue[i].replied ==> i == h.answered
  {
    assert PendingOk(queue[i], h.items[i], context, session);
    assert Matches(h.items[i], h.open[i]);
  }

  lemma AnsweredBound(queue: seq<Pending>, h: History, context: nat, next: nat, session: nat)
    requires Good(queue, h, context, next, session)
    ensures h.answered <= |queue| == |h.open|
  {}

  /** The reply code on the wire. */
  function ActionOf(action: nat): Action
    requires action <= 2
  {
    if action == 0 then Pass else if action == 1 then Consumed else Commit
  }

  /**
    What the answer with a given code makes of the k-th event of the log: 0 delivers a key as it came, 1 nothing,
    2 the text and after it the key if it is a tapped Shift. No other entry changes.
   */
  ghost predicate Answered(was: seq<Entry>, now: seq<Entry>, k: nat, action: nat, text: seq<byte>) {
    && k < |was| == |now| && was[k].decision.None? && now[k].event == was[k].event
    && (forall i | 0 <= i < |was| && i != k :: now[i] == was[i])
    && var e, ds := was[k].event, RenderEntry(now[k]);
       var own := [Delivery(e.context, e.message, e.value)];
       if action == 0 then ds == (if e.kind == Key then own else [])
       else if action == 1 then ds == []
       else exists n | 0 <= n <= |ds| ::
              Types(ds[..n], e.context, text) && ds[n..] == if e.kind == Key && e.tapped then own else []
  }

  lemma ReplyMeans(h: History, action: nat, text: seq<byte>)
    requires h.answered < |h.items| == |h.open| && h.open[h.answered].decision.None? && action <= 2 && ValidText(text)
    requires h.open[h.answered].event == h.items[h.answered].event
    ensures Answered(h.Log(), Decided(h, Meaning(ActionOf(action), text)).Log(), |h.past| + h.answered, action, text)
  {
    hide Types, Chars, Packs, ValidText;
    var k, g := |h.past| + h.answered, Decided(h, Meaning(ActionOf(action), text));
    var e := h.Log()[k].event;
    var ds := RenderEntry(g.Log()[k]);
    if action == 2 {
      CommitTypes(text, e.context);
      var chars := Chars(e.context, Packs(text, 0));
      assert ds[..|chars|] == chars;
      assert ds[|chars|..] == if e.kind == Key && e.tapped then Original(e) else [];
    }
  }

  lemma HasTerminator(text: seq<byte>)
    requires ValidText(text)
    ensures 0 in text && IsText(text, 0)
  {
    var cs :| AllScalars(cs) && EncodeAll(cs) + [0] <= text;
    assert text[|EncodeAll(cs)|] == (EncodeAll(cs) + [0])[|EncodeAll(cs)|] == 0;
    assert text[0..] == text;
    ValidIsText(cs, text, 0);
  }

  /** The text up to its terminator holds no control characters. */
  ghost predicate Clean(text: seq<byte>) {
    exists end | 0 <= end < |text| :: text[end] == 0 && forall k | 0 <= k < end :: text[k] >= 32 && text[k] != 127
  }

  method Printable(text: seq<byte>) returns (ok: bool)
    requires 0 in text
    ensures ok <==> Clean(text)
  {
    var i := 0;
    while text[i] != 0
      invariant i < |text| && 0 in text[i..]
      invariant forall k | 0 <= k < i :: text[k] >= 32 && text[k] != 127
      decreases |text| - i
    {
      if text[i] < 32 || text[i] == 127 { return false; }
      assert text[i..] == [text[i]] + text[i + 1..];
      i := i + 1;
    }
    ok := true;
  }

  /** Without a session every queued event has its answer. */
  lemma AllAnswered(queue: seq<Pending>, h: History, context: nat, next: nat)
    requires Good(queue, h, context, next, 0)
    ensures h.answered == |queue| == |h.items| == |h.open|
  {
    forall i | 0 <= i < |queue| ensures h.items[i].replied { assert PendingOk(queue[i], h.items[i], context, 0); }
    assert queue != [] ==> h.items[|queue| - 1].replied;
  }

  lemma RaiseSession(queue: seq<Pending>, h: History, context: nat, next: nat, session: nat)
    requires Good(queue, h, context, next, 0)
    ensures Good(queue, h, context, next, session)
  {
    forall i | 0 <= i < |queue| ensures PendingOk(queue[i], h.items[i], context, session) {
      assert PendingOk(queue[i], h.items[i], context, 0);
    }
  }

  class Ime {
    const events: array<Pending>
    var head: nat
    var count: nat
    var session: nat
    var sessionGeneration: nat
    var launchGeneration: nat
    var context: nat
    var nextSequence: nat
    var focus: Focus
    var chord: bool          // Ctrl, Alt or Win is down
    var shiftDown: bool
    var shiftTap: bool
    var held: set<nat>       // held keys other than Shift, by code below 256
    var mode: nat
    var uiVisible: bool
    var uiRevision: nat
    var resetPending: bool
    ghost var queue: seq<Pending>
    ghost var h: History
    ghost var strokes: seq<Stroke>   // everything the key flags have followed

    ghost function Flags(): Keys
      reads this
    {
      Keys(shiftDown, shiftTap, held, chord)
    }

    ghost predicate Valid()
      reads this, events
    {
      && events.Length == EVENT_CAPACITY && count == |queue| && Ring(events[..], head, queue)
      && (session != 0 ==> count < EVENT_CAPACITY)
      && Good(queue, h, context, nextSequence, session)
      && Flags() == Tracked(strokes)
    }

    /** Conservation, in every reachable state. */
    lemma Balance()
      requires Valid()
      ensures h.emitted + RenderQueue(h.items) == RenderLog(h.Log())
      ensures count == 0 ==> h.emitted == RenderLog(h.Log())
    {
      Conservation(h.items, h.answered, h.past, h.open, h.emitted, h.done);
    }

    /** Replied events form a prefix; at most the next one is with the engine; without a session nothing waits. */
    lemma AnsweredPrefix(i: nat, j: nat)
      requires Valid() && i <= j < count
      ensures i < j && (queue[j].replied || queue[j].fetched) ==> queue[i].replied
      ensures session == 0 ==> queue[j].replied
    {
      assert PendingOk(queue[i], h.items[i], context, session) && PendingOk(queue[j], h.items[j], context, session);
    }

    constructor (focus: Focus)
      ensures Valid() && fresh(events) && session == 0 && h == FRESH && strokes == []
    {
      events := new Pending[EVENT_CAPACITY](_ => BLANK);
      head, count, session, sessionGeneration, launchGeneration, context, nextSequence := 0, 0, 0, 1, 1, 1, 1;
      this.focus, chord, shiftDown, shiftTap, held, mode := focus, false, false, false, {}, MODE_ENGLISH;
      uiVisible, uiRevision, resetPending := false, 0, true;
      queue, h, strokes := [], FRESH, [];
      GoodEmpty(1, 1, 0);
    }

    method Reset()
      requires events.Length == EVENT_CAPACITY && Flags() == Tracked(strokes)
      modifies `shiftDown, `shiftTap, `held, `context, `head, `count, `uiVisible, `uiRevision, `resetPending
      modifies `queue, `h, `strokes
      ensures Valid() && Emptied() && context == old(context) + 1
    {
      ClearFields();
      GoodEmpty(context, nextSequence, session);
    }

    /** Nothing is queued, shown or held, and the engine is to be told. */
    ghost predicate Emptied()
      reads this
    {
      && count == 0 && queue == [] && h == FRESH && resetPending
      && !shiftDown && !shiftTap && held == {} && !uiVisible
    }

    /** No key counts as held any more; the modifiers stay as they are. */
    method ForgetKeys()
      requires Flags() == Tracked(strokes)
      modifies `shiftDown, `shiftTap, `held, `strokes
      ensures Flags() == Tracked(strokes) && strokes == old(strokes) + [Clear]
      ensures !shiftDown && !shiftTap && held == {}
    {
      hide Tracked;
      TrackedMore(strokes, Clear);
      shiftDown, shiftTap, held := false, false, {};
      strokes := strokes + [Clear];
    }

    method ClearFields()
      requires Flags() == Tracked(strokes)
      modifies `shiftDown, `shiftTap, `held, `context, `head, `count, `uiVisible, `uiRevision, `resetPending
      modifies `queue, `h, `strokes
      ensures Emptied() && head == 0 && context == old(context) + 1 && Flags() == Tracked(strokes)
    {
      hide Tracked;
      ForgetKeys();
      context := context + 1;
      head, count, uiVisible, uiRevision, resetPending := 0, 0, false, 0, true;
      queue, h := [], FRESH;
    }

    method Detach()
      requires events.Length == EVENT_CAPACITY && Flags() == Tracked(strokes)
      modifies this
      ensures Valid() && Emptied() && session == 0 && launchGeneration == old(launchGeneration) + 1
    {
      session := 0;
      launchGeneration := launchGeneration + 1;
      Reset();
    }

    /** Rewrites one queued slot of the ring. */
    method SetSlot(k: nat, p: Pending)
      requires events.Length == EVENT_CAPACITY && Ring(events[..], head, queue) && k < |queue|
      modifies events, `queue
      ensures Ring(events[..], head, queue) && queue == old(queue)[k := p]
    {
      RingSet(events[..], head, queue, k, p);
      events[(head + k) % EVENT_CAPACITY] := p;
      queue := queue[k := p];
      assert events[..] == old(events[..])[At(head, k) := p];
    }

    /** The engine is gone: unanswered events become PASS; answers, half-delivered text and order survive. */
    method FailOpen()
      requires Valid()
      modifies events, `queue, `h, `strokes
      modifies `shiftDown, `shiftTap, `held, `session, `launchGeneration, `uiVisible, `uiRevision, `resetPending
      ensures Valid() && session == 0
      ensures queue == OpenedQueue(old(queue)) && h == OpenedHistory(old(h))
      ensures PassedThrough(old(h).Log(), h.Log())
      ensures RenderLog(h.Log()) == RenderLog(old(h).Log())
    {
      hide Good;
      GoodOpened(queue, h, context, nextSequence, session);
      OpenedPasses(h);
      DropSession();
      h := OpenedHistory(h);
      AnswerAll();
    }

    method DropSession()
      requires Flags() == Tracked(strokes)
      modifies `shiftDown, `shiftTap, `held, `session, `launchGeneration, `uiVisible, `uiRevision, `resetPending
      modifies `strokes
      ensures session == 0 && !shiftDown && !shiftTap && held == {} && !uiVisible && resetPending
      ensures Flags() == Tracked(strokes)
      ensures launchGeneration == old(launchGeneration) + 1
    {
      ForgetKeys();
      session := 0;
      launchGeneration := launchGeneration + 1;
      uiVisible, uiRevision := false, 0;
      resetPending := true;
    }

    method AnswerAll()
      requires events.Length == EVENT_CAPACITY && Ring(events[..], head, queue) && count == |queue|
      modifies events, `queue
      ensures Ring(events[..], head, queue) && queue == OpenedQueue(old(queue))
    {
      for i := 0 to count
        invariant Ring(events[..], head, queue) && count == |queue|
        invariant forall j :: 0 <= j < i ==> queue[j] == OpenedQueue(old(queue))[j]
        invariant forall j :: i <= j < count ==> queue[j] == old(queue)[j]
      {
        var p := events[(head + i) % EVENT_CAPACITY];
        assert p == queue[i];
        if !p.replied { SetSlot(i, p.(replied := true, action := Pass)); }
      }
    }

    /** Appends an unanswered event; one slot is kept back for the key that triggers fallback. */
    method QueueEvent(kind: Kind, message: nat, value: nat, tapped: bool, revision: nat) returns (ok: bool)
      requires Valid() && session != 0
      modifies this, events
      ensures Valid() && ok == (old(count) < EVENT_CAPACITY - 1)
      ensures ok ==> count == old(count) + 1 && nextSequence == old(nextSequence) + 1
      ensures ok ==> h == Queued(old(h), Event(kind, message, value, tapped, old(nextSequence), context, revision))
      ensures !ok ==> h == old(h) && count == old(count) && nextSequence == old(nextSequence)
      ensures context == old(context) && session == old(session)
    {
      if count >= EVENT_CAPACITY - 1 { return false; }
      var e := Event(kind, message, value, tapped, nextSequence, context, revision);
      GoodQueued(queue, h, context, nextSequence, session, e);
      Append(Pending(e, false, false, Pass, [], 0));
      nextSequence := nextSequence + 1;
      h := Queued(h, e);
      ok := true;
    }

    method Append(p: Pending)
      requires events.Length == EVENT_CAPACITY && Ring(events[..], head, queue) && count == |queue| < EVENT_CAPACITY
      modifies `count, `queue, events
      ensures Ring(events[..], head, queue) && count == |queue| && queue == old(queue) + [p]
    {
      RingAppend(events[..], head, queue, p);
      events[(head + count) % EVENT_CAPACITY] := p;
      count := count + 1;
      queue := queue + [p];
      assert events[..] == old(events[..])[At(head, count - 1) := p];
    }

    /** Whether the focused control takes text from the engine at all. */
    predicate Accepts(pid: nat, tid: nat, callback: nat)
      reads this
    {
      session != 0 && pid == focus.pid && tid == focus.tid && callback == focus.callback && focus.enabled
      && !focus.password
    }

    /** A solo Shift release, or any other key without a chord unless the engine is idle in English mode. */
    predicate Wants(message: nat, value: nat)
      reads this
    {
      if IsShift(message, value) then message == MSG_KEYUP && shiftDown && shiftTap && !chord
      else !chord && !(mode == MODE_ENGLISH && !uiVisible && count == 0)
    }

    /**
      Decides whether a keyboard message waits for the engine. A message that is taken is queued
      exactly once; one that is not is left to the caller and the queue is unchanged or reset.
     */
    method Filter(message: nat, value: nat, callback: nat, pid: nat, tid: nat) returns (taken: bool)
      requires Valid()
      modifies this, events
      ensures Valid()
      ensures taken <==> IsKeyMessage(message) && old(Accepts(pid, tid, callback) && Wants(message, value))
      ensures taken ==> Took(old(h), h, old(count),
                             Event(Key, message, value, IsShift(message, value), old(nextSequence), context, 0))
      ensures taken ==> context == old(context) && nextSequence == old(nextSequence) + 1
      ensures !taken ==> if && IsKeyMessage(message) && !IsShift(message, value)
                            && old(Accepts(pid, tid, callback) && chord && uiVisible)
                         then Emptied() && context == old(context) + 1 else h == old(h) && context == old(context)
    {
      hide Good;
      hide Tracked;
      hide Solo;
      if !IsKeyMessage(message) { return false; }
      if !Accepts(pid, tid, callback) { return false; }
      var toggle := TrackShift(message, value);
      if IsShift(message, value) && !toggle { return false; }
      if !toggle && chord {
        if uiVisible { Reset(); }
        return false;
      }
      if !toggle && mode == MODE_ENGLISH && !uiVisible && count == 0 { return false; }
      Take(message, value, toggle);
      taken := true;
    }

    /** Queues a key for the engine; a full ring drops the session and the key goes in as PASS. */
    method Take(message: nat, value: nat, toggle: bool)
      requires Valid() && session != 0
      modifies this, events
      ensures Valid() && context == old(context) && nextSequence == old(nextSequence) + 1
      ensures Took(old(h), h, old(count), Event(Key, message, value, toggle, old(nextSequence), context, 0))
    {
      hide Good;
      hide Tracked;
      var ok := QueueEvent(Key, message, value, toggle, 0);
      if !ok {
        FailOpen();
        QueuePassed(message, value);
      }
    }

    /**
      A taken message joins the log unanswered or, when the ring is full, session loss answers everything with
      PASS.
     */
    ghost predicate Took(was: History, now: History, count: nat, e: Event) {
      if count < EVENT_CAPACITY - 1 then now == Queued(was, e)
      else
        && now.past == was.past && now.emitted == was.emitted
        && now.open == OpenedLog(was.open) + [Entry(e.(tapped := false), Some(Decision(Pass, [])))]
    }

    /** Follows the held keys and the Shift key; true exactly on the release of a Shift that was pressed alone. */
    method TrackShift(message: nat, value: nat) returns (toggle: bool)
      requires IsKeyMessage(message) && Flags() == Tracked(strokes)
      modifies `shiftDown, `shiftTap, `held, `strokes
      ensures Flags() == Tracked(strokes) && strokes == old(strokes) + [Press(message, value)]
      ensures toggle <==> value == KEY_SHIFT && message == MSG_KEYUP && Solo(old(strokes))
      ensures toggle <==> value == KEY_SHIFT && message == MSG_KEYUP && old(shiftDown && shiftTap && !chord)
    {
      hide Tracked;
      TapIffSolo(strokes);
      TrackedMore(strokes, Press(message, value));
      toggle := false;
      if value < 256 && value != KEY_SHIFT {
        if message == MSG_KEYDOWN { held := held + {value}; }
        if message == MSG_KEYUP { held := held - {value}; }
      }
      if value == KEY_SHIFT && message != MSG_CHAR {
        if message == MSG_KEYDOWN {
          shiftTap := !shiftDown && !chord;
          if held != {} { shiftTap := false; }
          shiftDown := true;
        } else if message == MSG_KEYUP {
          toggle := shiftDown && shiftTap && !chord;
          shiftDown, shiftTap := false, false;
        }
      } else if message == MSG_KEYDOWN || message == MSG_KEYUP || message == MSG_CHAR || message == MSG_SPCHAR {
        shiftTap := false;
      }
      strokes := strokes + [Press(message, value)];
    }

    /** The modifiers changed; a chord spoils a Shift tap. */
    method SetModifiers(chord: bool)
      requires Valid()
      modifies `chord, `shiftTap, `strokes
      ensures Valid() && this.chord == chord && strokes == old(strokes) + [Modify(chord)]
    {
      hide Tracked;
      hide Good;
      TrackedMore(strokes, Modify(chord));
      this.chord := chord;
      if chord { shiftTap := false; }
      strokes := strokes + [Modify(chord)];
    }

    /** The reserved slot: the key that overflowed the ring goes in already answered with PASS. */
    method QueuePassed(message: nat, value: nat)
      requires Valid() && session == 0 && count < EVENT_CAPACITY
      modifies this, events
      ensures Valid() && context == old(context) && nextSequence == old(nextSequence) + 1
      ensures h.past == old(h).past && h.emitted == old(h).emitted
      ensures h.open == old(h).open + [Entry(Event(Key, message, value, false, old(nextSequence), context, 0),
                                             Some(Decision(Pass, [])))]
    {
      hide Good;
      var e := Event(Key, message, value, false, nextSequence, context, 0);
      GoodPassed(queue, h, context, nextSequence, e);
      Append(Pending(e, false, true, Pass, [], 0));
      nextSequence := nextSequence + 1;
      h := Decided(Queued(h, e), Meaning(Pass, []));
    }

    /** The next message for the application: replied events are rendered in order, one delivery a call. */
    method TakeDelivery() returns (got: bool, d: Delivery)
      requires Valid()
      modifies this, events
      ensures Valid() && h.Log() == old(h).Log()
      ensures got ==> h.emitted == old(h).emitted + [d] && d.context == context
      ensures !got ==> h.emitted == old(h).emitted && (count == 0 || (session != 0 && !queue[0].replied))
      ensures context == old(context) && session == old(session)
    {
      hide Good;
      hide ScalarLen;
      hide Pack;
      d := Delivery(context, 0, 0);
      while count > 0
        invariant Valid() && h.Log() == old(h).Log() && h.emitted == old(h).emitted
        invariant context == old(context) && session == old(session) && nextSequence == old(nextSequence)
        decreases count
      {
        var p := events[head];
        assert p == queue[0] by { assert At(head, 0) == head; }
        HeadOk(queue, h, context, nextSequence, session);
        if !p.replied { return false, d; }
        if p.event.context != context { p := p.(action := Consumed); }
        if p.action == Commit && p.text[p.offset] != 0 {
          GoodChar(queue, h, context, nextSequence, session);
          var n := ScalarBytes(p.text, p.offset, |p.text| - p.offset);
          assert p.text[p.offset..|p.text|] == p.text[p.offset..];
          var packed := PackBytes(p.text[p.offset..], n);
          d := Delivery(context, MSG_CHAR, packed);
          SetSlot(0, p.(offset := p.offset + n));
          h := Typed(h, d);
          return true, d;
        }
        var pass := p.event.kind == Key && (p.action == Pass || (p.action == Commit && p.event.tapped));
        GoodPopped(queue, h, context, nextSequence, session);
        d := Delivery(context, p.event.message, p.event.value);
        Drop();
        assert h.past + [h.open[0]] + h.open[1..] == h.past + h.open;
        h := Popped(h);
        if pass { return true, d; }
      }
      got := false;
    }

    /** Advances the head of the ring by one slot. */
    method Drop()
      requires events.Length == EVENT_CAPACITY && Ring(events[..], head, queue) && count == |queue| > 0
      modifies `head, `count, `queue
      ensures Ring(events[..], head, queue) && count == |queue| && queue == old(queue)[1..]
    {
      RingPop(events[..], head, queue);
      head := (head + 1) % EVENT_CAPACITY;
      count := count - 1;
      queue := queue[1..];
    }

    /**
      A new engine session starts from a reset queue under a fresh session number. `wire` is the
      outcome of reading the request and `unknown` whether it asks for capabilities that do not exist.
     */
    method Attach(wire: Status, authorized: bool, unknown: bool, copied: bool) returns (status: Status)
      requires Valid()
      modifies this
      ensures Valid()
      ensures status == if wire != OK then wire else if !authorized then EPERM else if old(session) != 0 then EBUSY
                        else if unknown then EINVAL else if !copied then EFAULT else OK
      ensures status == OK ==> Emptied() && session == sessionGeneration == old(sessionGeneration) + 1
      ensures status != OK ==> session == old(session) && h == old(h)
    {
      hide Good;
      if wire != OK { return wire; }
      if !authorized { return EPERM; }
      if session != 0 { return EBUSY; }
      if unknown { return EINVAL; }
      sessionGeneration := sessionGeneration + 1;
      if !copied { return EFAULT; }
      session := sessionGeneration;
      Reset();
      status := OK;
    }

    /** What fetching may change: outdated pointer events at the front are consumed, and nothing else. */
    ghost predicate Skipped(was: History, now: History, revision: nat) {
      && now.emitted == was.emitted && now.past == was.past && |now.open| == |was.open| && was.answered <= now.answered
      && (forall i :: 0 <= i < |now.open| ==>
            now.open[i] == if was.answered <= i < now.answered
                           then was.open[i].(decision := Some(Decision(Consumed, []))) else was.open[i])
      && forall i :: was.answered <= i < now.answered ==>
           i < |now.open| && now.open[i].event.kind != Key && now.open[i].event.revision != revision
    }

    /**
      Hands the engine the first unanswered event, unless it already has it; outdated pointer events are
      consumed on the way.
     */
    method GetEvent(authorized: bool, sameVersion: bool, copied: bool) returns (status: Status, e: Option<Event>)
      requires Valid()
      modifies this, events
      ensures Valid() && Skipped(old(h), h, uiRevision) && session == old(session)
      ensures e.Some? ==>
                status == OK && h.answered < count && queue[h.answered].fetched && e.value == queue[h.answered].event
      ensures e.Some? ==> e.value.kind == Key || e.value.revision == uiRevision
      ensures !authorized || old(session) == 0 ==> status == EPERM && h == old(h)
      ensures authorized && old(session) != 0 && !sameVersion ==> status == EINVAL && h == old(h)
      ensures authorized && old(session) != 0 && sameVersion && old(resetPending) ==>
                status == (if copied then OK else EFAULT) && e.None? && resetPending == !copied
      ensures authorized && old(session) != 0 && sameVersion && !old(resetPending) ==>
                if Busy(old(queue), old(h)) || h.answered == count then status == EAGAIN
                else status == (if copied then OK else EFAULT) && (e.Some? <==> copied)
    {
      hide Good;
      hide Busy;
      if !authorized || session == 0 { return EPERM, None; }
      if !sameVersion { return EINVAL, None; }
      if resetPending {
        if !copied { return EFAULT, None; }
        resetPending := false;
        return OK, None;
      }
      status, e := Serve(copied);
    }

    method Consume(i: nat)
      requires Valid() && session != 0 && i == h.answered < count && !queue[i].fetched
      modifies events, `queue, `h
      ensures Valid() && queue == old(queue)[i := old(queue)[i].(replied := true, action := Consumed)]
      ensures h.emitted == old(h).emitted && h.past == old(h).past && h.answered == i + 1
      ensures |old(h).open| == count
      ensures h.open == old(h).open[i := old(h).open[i].(decision := Some(Decision(Consumed, [])))]
    {
      hide Good;
      var p := events[(head + i) % EVENT_CAPACITY];
      assert p == queue[i];
      SlotOk(queue, h, context, nextSequence, session, i);
      GoodDecided(queue, h, context, nextSequence, session, Consumed, p.text);
      SetSlot(i, p.(replied := true, action := Consumed));
      h := Decided(h, Meaning(Consumed, p.text));
    }

    method Fetch(i: nat)
      requires Valid() && session != 0 && i == h.answered < count && !queue[i].fetched
      modifies events, `queue, `h
      ensures Valid() && queue == old(queue)[i := old(queue)[i].(fetched := true)]
      ensures h.emitted == old(h).emitted && h.past == old(h).past && h.answered == old(h).answered
      ensures h.open == old(h).open
    {
      hide Good;
      var p := events[(head + i) % EVENT_CAPACITY];
      assert p == queue[i];
      SlotOk(queue, h, context, nextSequence, session, i);
      GoodFetched(queue, h, context, nextSequence, session);
      SetSlot(i, p.(fetched := true));
      h := Fetched(h);
    }

    method Serve(copied: bool) returns (status: Status, e: Option<Event>)
      requires Valid() && session != 0
      modifies events, `queue, `h
      ensures Valid() && Skipped(old(h), h, uiRevision)
      ensures e.Some? ==> h.answered < count && queue[h.answered].fetched && e.value == queue[h.answered].event
      ensures e.Some? ==> e.value.kind == Key || e.value.revision == uiRevision
      ensures if Busy(old(queue), old(h)) || h.answered == count then status == EAGAIN && e.None?
              else status == (if copied then OK else EFAULT) && (e.Some? <==> copied)
    {
      hide Good;
      AnsweredBound(queue, h, context, nextSequence, session);
      for i := 0 to count
        invariant Valid() && Skipped(old(h), h, uiRevision) && |h.open| == count && h.answered <= count
        invariant i <= h.answered
        invariant |queue| == |old(queue)| && forall k :: h.answered <= k < |queue| ==> queue[k] == old(queue)[k]
        invariant h.answered > old(h).answered ==> !Busy(old(queue), old(h))
      {
        var p := events[(head + i) % EVENT_CAPACITY];
        assert p == queue[i];
        SlotOk(queue, h, context, nextSequence, session, i);
        SlotOk(old(queue), old(h), context, nextSequence, session, i);
        if p.replied { continue; }
        if p.fetched { return EAGAIN, None; }
        if p.event.kind != Key && p.event.revision != uiRevision {
          Consume(i);
          continue;
        }
        if !copied { return EFAULT, None; }
        Fetch(i);
        return OK, Some(p.event);
      }
      status, e := EAGAIN, None;
    }

    /** The engine already holds the first unanswered event. */
    ghost predicate Busy(queue: seq<Pending>, h: History) { h.answered < |queue| && queue[h.answered].fetched }

    /** Accepts the engine's answer for the event it holds, and for no other. */
    method Reply(authorized: bool, sameVersion: bool, reserved: nat, action: nat, replySession: nat, replyContext: nat,
                 sequence: nat, text: seq<byte>) returns (status: Status)
      requires Valid()
      modifies events, `queue, `h
      ensures Valid()
      ensures status != OK ==> h == old(h)
      ensures status == EPERM <==> !authorized || session == 0
      ensures authorized && session != 0 ==>
                (status == EINVAL <==> !(&& sameVersion && reserved == 0 && action <= 2 && replySession == session
                                         && replyContext == context && ValidText(text) && Clean(text)))
      ensures status == ESTALE || status == OK ==> (status == OK <==> Awaited(old(queue), old(h), sequence))
      ensures status == OK ==> action <= 2 && h == Decided(old(h), Meaning(ActionOf(action), text))
      ensures status == OK ==>
                var k := |old(h).past| + old(h).answered;
                && Answered(old(h).Log(), h.Log(), k, action, text) && h.Log()[k].event.sequence == sequence
    {
      hide Good;
      hide ValidText;
      if !authorized || session == 0 { return EPERM; }
      if !sameVersion { return EINVAL; }
      var valid := Utf8.Valid(text);
      if reserved != 0 || action > 2 || replySession != session || replyContext != context || !valid { return EINVAL; }
      HasTerminator(text);
      var printable := Printable(text);
      if !printable { return EINVAL; }
      ghost var was, pending := h, queue;
      status := Answer(sequence, ActionOf(action), text);
      if status == OK {
        SlotOk(pending, was, context, nextSequence, session, was.answered);
        ReplyMeans(was, action, text);
      }
    }

    /** The engine holds the first unanswered event, under this number. */
    ghost predicate Awaited(queue: seq<Pending>, h: History, sequence: nat) {
      && h.answered < |queue| == |h.items| == |h.open|
      && queue[h.answered].fetched && queue[h.answered].event.sequence == sequence
    }

    method Answer(sequence: nat, action: Action, text: seq<byte>) returns (status: Status)
      requires Valid() && (action == Commit ==> IsText(text, 0))
      modifies events, `queue, `h
      ensures Valid()
      ensures status == OK || (status == ESTALE && h == old(h))
      ensures status == OK <==> Awaited(old(queue), old(h), sequence)
      ensures status == OK ==> h == Decided(old(h), Meaning(action, text))
    {
      hide Good;
      for i := 0 to count
        invariant h == old(h) && queue == old(queue) && Ring(events[..], head, queue)
        invariant i <= h.answered
      {
        var p := events[(head + i) % EVENT_CAPACITY];
        assert p == queue[i];
        SlotOk(queue, h, context, nextSequence, session, i);
        if p.replied { continue; }
        if !p.fetched || p.event.sequence != sequence { return ESTALE; }
        GoodDecided(queue, h, context, nextSequence, session, action, text);
        SetSlot(i, p.(replied := true, action := action, text := text));
        h := Decided(h, Meaning(action, text));
        return OK;
      }
      status := ESTALE;
    }

    /** Focus changes, process exit and preference changes drop everything queued for the old context. */
    method SetFocus(next: Focus)
      requires Valid()
      modifies this
      ensures Valid() && focus == next
      ensures next != old(focus) ==> Emptied() && context == old(context) + 1
      ensures next == old(focus) ==> h == old(h) && context == old(context)
    {
      hide Good;
      var changed := next != focus;
      focus := next;
      if changed { Reset(); }
    }

    /** A stalled or dead engine fails open; a pointer event is queued only for the list it was shown with. */
    method UiAction(kind: Kind, value: nat, revision: nat, shown: bool) returns (ok: bool)
      requires Valid() && kind != Key
      modifies this, events
      ensures Valid()
      ensures ok <==> old(session != 0 && uiVisible && uiRevision == revision && count < EVENT_CAPACITY - 1) && shown
      ensures ok ==> h == Queued(old(h), Event(kind, 0, value, false, old(nextSequence), context, revision))
      ensures !ok ==> h == old(h)
    {
      hide Good;
      if session == 0 || !uiVisible || uiRevision != revision || !shown { return false; }
      ok := QueueEvent(kind, 0, value, false, revision);
    }
  }
}
