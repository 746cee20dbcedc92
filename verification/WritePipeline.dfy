/** The micro-batching writer between the message handlers and the message store (server/store.py). */
module WritePipeline {
  import opened Sequences

  /** A stored document: its unique id, and everything else in it. */
  datatype Doc = Doc(id: string, body: string)

  const QUEUE_SIZE := 20000

  // -------------------------------------------------------------------------
  // The store
  // -------------------------------------------------------------------------

  /** Inserting into a collection with unique ids: a document whose id is taken is dropped. */
  function InsertOne(db: map<string, Doc>, d: Doc): map<string, Doc> {
    if d.id in db then db else db[d.id := d]
  }

  /** An unordered bulk insert; hit[i] tells whether document i reached the store before any failure. */
  function InsertMany(db: map<string, Doc>, batch: seq<Doc>, hit: seq<bool>): map<string, Doc> {
    if batch == [] then db
    else
      var n := |batch| - 1;
      var rest := InsertMany(db, batch[..n], hit);
      if n < |hit| && !hit[n] then rest else InsertOne(rest, batch[n])
  }

  /** The specification: every id is mapped to the first document submitted with it. */
  ghost predicate FirstWins(db: map<string, Doc>, docs: seq<Doc>) {
    && (forall i :: 0 <= i < |docs| ==> docs[i].id in db)
    && (forall id :: id in db ==>
          exists i :: 0 <= i < |docs| && IsFirst(docs, i) && docs[i].id == id && db[id] == docs[i])
  }

  ghost predicate IsFirst(docs: seq<Doc>, i: nat)
    requires i < |docs|
  {
    forall j :: 0 <= j < i ==> docs[j].id != docs[i].id
  }

  lemma FirstWinsSnoc(db: map<string, Doc>, docs: seq<Doc>, d: Doc)
    requires FirstWins(db, docs)
    ensures FirstWins(InsertOne(db, d), docs + [d])
  {
    var docs' := docs + [d];
    var db' := InsertOne(db, d);
    forall id | id in db'
      ensures exists i :: 0 <= i < |docs'| && IsFirst(docs', i) && docs'[i].id == id && db'[id] == docs'[i]
    {
      if id in db {
        var i :| 0 <= i < |docs| && IsFirst(docs, i) && docs[i].id == id && db[id] == docs[i];
        assert IsFirst(docs', i);
      } else {
        assert forall j :: 0 <= j < |docs| ==> docs'[j] == docs[j];
        assert IsFirst(docs', |docs|);
      }
    }
  }

  predicate AllHit(hit: seq<bool>) {
    forall i :: 0 <= i < |hit| ==> hit[i]
  }

  /** A bulk insert that succeeds is the one-by-one insert, so batching never shows in the store. */
  lemma {:induction false} BulkKeepsFirstWins(db: map<string, Doc>, docs: seq<Doc>, batch: seq<Doc>, hit: seq<bool>)
    requires FirstWins(db, docs) && AllHit(hit)
    ensures FirstWins(InsertMany(db, batch, hit), docs + batch)
  {
    if batch == [] {
      assert docs + batch == docs;
    } else {
      var n := |batch| - 1;
      var rest := InsertMany(db, batch[..n], hit);
      BulkKeepsFirstWins(db, docs, batch[..n], hit);
      assert InsertMany(db, batch, hit) == InsertOne(rest, batch[n]);
      assert docs + batch == (docs + batch[..n]) + [batch[n]];
      FirstWinsSnoc(rest, docs + batch[..n], batch[n]);
    }
  }

  /** Whatever fails, the store holds only submitted documents, each under its own id. */
  ghost predicate OnlyFrom(db: map<string, Doc>, docs: seq<Doc>) {
    forall id :: id in db ==> db[id] in docs && db[id].id == id
  }

  lemma {:induction false} BulkKeepsOnlyFrom(db: map<string, Doc>, docs: seq<Doc>, batch: seq<Doc>, hit: seq<bool>)
    requires OnlyFrom(db, docs) && forall d :: d in batch ==> d in docs
    ensures OnlyFrom(InsertMany(db, batch, hit), docs)
  {
    if batch == [] {
    } else {
      BulkKeepsOnlyFrom(db, docs, batch[..|batch| - 1], hit);
    }
  }

  /** Document i reached the store. */
  predicate Hits(batch: seq<Doc>, hit: seq<bool>, i: nat) {
    i < |batch| && (i < |hit| ==> hit[i])
  }

  /** The first document of this id that reached the store. */
  ghost predicate FirstHit(batch: seq<Doc>, hit: seq<bool>, i: nat, id: string) {
    Hits(batch, hit, i) && batch[i].id == id && forall j: nat :: j < i && Hits(batch, hit, j) ==> batch[j].id != id
  }

  /** Whichever documents fail, a bulk insert replaces nothing, and the first document of a new id counts. */
  lemma {:induction false} InsertManyExact(db: map<string, Doc>, batch: seq<Doc>, hit: seq<bool>, id: string)
    ensures var db' := InsertMany(db, batch, hit);
      && (id in db ==> id in db' && db'[id] == db[id])
      && (id !in db && id in db' ==> exists i: nat :: FirstHit(batch, hit, i, id) && db'[id] == batch[i])
      && (id !in db' ==> forall i: nat :: Hits(batch, hit, i) ==> batch[i].id != id)
  {
    if batch == [] {
    } else {
      var n := |batch| - 1;
      InsertManyExact(db, batch[..n], hit, id);
      var rest := InsertMany(db, batch[..n], hit);
      assert forall i: nat :: i < n ==>
        (Hits(batch, hit, i) <==> Hits(batch[..n], hit, i)) && batch[i] == batch[..n][i];
      if id !in db && id in rest {
        var i: nat :| FirstHit(batch[..n], hit, i, id) && rest[id] == batch[..n][i];
        assert FirstHit(batch, hit, i, id);
      } else if id !in rest && id in InsertMany(db, batch, hit) {
        assert FirstHit(batch, hit, n, id);
      }
    }
  }

  // -------------------------------------------------------------------------
  // The writer as a state machine: handlers enqueue between any two of its steps
  // -------------------------------------------------------------------------

  datatype Phase =
    | Waiting                // at the queue, where cancellation is caught
    | Draining(limit: nat)   // taking further documents without waiting
    | Inserting              // awaiting the bulk insert, whose job has not been started yet
    | Running                // awaiting the bulk insert, whose job runs in a worker thread
    | Flushing               // cancelled at the queue, awaiting the final insert
    | Stopped

  /**
   * `accepted` is what entered the queue, `submitted` and `flushed` what a worker thread was given to insert, and
   * `abandoned` the batch whose job was cancelled before a thread took it.
   */
  datatype Pipeline = Pipeline(
    queue: seq<Doc>, batch: seq<Doc>, phase: Phase, db: map<string, Doc>,
    accepted: seq<Doc>, submitted: seq<seq<Doc>>, flushed: seq<Doc>, abandoned: seq<Doc>, failed: bool)

  const START := Pipeline([], [], Waiting, map[], [], [], [], [], false)

  datatype Event =
    | Enqueue(d: Doc)
    | First
    | Take
    | Close
    | StartJob
    | Insert(hit: seq<bool>)
    | CancelWaiting
    | FlushDone(hit: seq<bool>)
    | CancelInserting(hit: seq<bool>)

  /** Up to 500 documents when more than 50 are still queued after the first, else up to 100. */
  function BatchLimit(backlog: nat): nat {
    if backlog > 50 then 500 else 100
  }

  function Step(p: Pipeline, ev: Event): Pipeline {
    match ev
    case Enqueue(d) =>
      if |p.queue| >= QUEUE_SIZE then p
      else p.(queue := p.queue + [d], accepted := p.accepted + [d])
    case First =>
      if p.phase.Waiting? && p.queue != []
      then p.(batch := [p.queue[0]], queue := p.queue[1..], phase := Draining(BatchLimit(|p.queue| - 1))) else p
    case Take =>
      if p.phase.Draining? && |p.batch| < p.phase.limit && p.queue != []
      then p.(batch := p.batch + [p.queue[0]], queue := p.queue[1..]) else p
    case Close =>
      if p.phase.Draining? then p.(phase := Inserting) else p
    case StartJob =>
      if p.phase.Inserting? then p.(phase := Running) else p
    case Insert(hit) =>
      if p.phase.Running? then Submit(p, hit).(phase := Waiting) else p
    case CancelWaiting =>
      if !p.phase.Waiting? then p
      else if p.queue == [] then p.(phase := Stopped)
      else p.(batch := p.queue, queue := [], phase := Flushing)
    case FlushDone(hit) =>
      if p.phase.Flushing?
      then p.(db := InsertMany(p.db, p.batch, hit), flushed := p.batch, batch := [], phase := Stopped,
              failed := p.failed || !AllHit(hit))
      else p
    case CancelInserting(hit) =>
      if p.phase.Running? then Submit(p, hit).(phase := Stopped)
      else if p.phase.Inserting? then p.(abandoned := p.batch, batch := [], phase := Stopped)
      else p
  }

  function Submit(p: Pipeline, hit: seq<bool>): Pipeline {
    p.(db := InsertMany(p.db, p.batch, hit), submitted := p.submitted + [p.batch], batch := [],
       failed := p.failed || !AllHit(hit))
  }

  function PlayOn(p: Pipeline, evs: seq<Event>): Pipeline {
    if evs == [] then p else Step(PlayOn(p, evs[..|evs| - 1]), evs[|evs| - 1])
  }

  function Play(evs: seq<Event>): Pipeline {
    PlayOn(START, evs)
  }

  function Sent(p: Pipeline): seq<Doc> {
    Flatten(p.submitted) + p.flushed
  }

  lemma PlayOnSnoc(p: Pipeline, evs: seq<Event>, ev: Event)
    ensures PlayOn(p, evs + [ev]) == Step(PlayOn(p, evs), ev)
  {
    assert (evs + [ev])[..|evs + [ev]| - 1] == evs;
  }

  ghost predicate Inv(p: Pipeline) {
    && Sent(p) + p.abandoned + p.batch + p.queue == p.accepted
    && (p.flushed != [] || p.abandoned != [] ==> p.phase.Stopped?)
    && (p.abandoned != [] ==> p.flushed == [])
    && (p.phase.Waiting? || p.phase.Stopped? ==> p.batch == [])
    && (p.phase.Draining? ==> p.phase.limit <= 500 && 1 <= |p.batch| <= p.phase.limit)
    && (p.phase.Inserting? || p.phase.Running? ==> 1 <= |p.batch| <= 500)
    && (forall i :: 0 <= i < |p.submitted| ==> 1 <= |p.submitted[i]| <= 500)
    && (!p.failed ==> FirstWins(p.db, Sent(p)))
    && OnlyFrom(p.db, p.accepted)
  }

  lemma SubmitKeepsInv(p: Pipeline, hit: seq<bool>)
    requires Inv(p) && p.phase.Running?
    ensures Inv(Submit(p, hit).(phase := Waiting)) && Inv(Submit(p, hit).(phase := Stopped))
  {
    FlattenAppend(p.submitted, p.batch);
    assert p.flushed == [] && p.abandoned == [];
    assert Sent(p) == Flatten(p.submitted);
    assert Sent(p) + p.abandoned == Sent(p);
    assert Sent(Submit(p, hit)) == Flatten(p.submitted) + p.batch;
    BulkKeepsOnlyFrom(p.db, p.accepted, p.batch, hit);
    if !p.failed && AllHit(hit) {
      BulkKeepsFirstWins(p.db, Sent(p), p.batch, hit);
    }
  }

  lemma FlushKeepsInv(p: Pipeline, hit: seq<bool>)
    requires Inv(p) && p.phase.Flushing?
    ensures Inv(Step(p, FlushDone(hit)))
  {
    assert p.flushed == [] && p.abandoned == [];
    assert Sent(p) == Flatten(p.submitted);
    assert Sent(p) + p.abandoned == Sent(p);
    assert Sent(Step(p, FlushDone(hit))) == Sent(p) + p.batch;
    BulkKeepsOnlyFrom(p.db, p.accepted, p.batch, hit);
    if !p.failed && AllHit(hit) {
      BulkKeepsFirstWins(p.db, Sent(p), p.batch, hit);
    }
  }

  lemma EnqueueKeepsInv(p: Pipeline, d: Doc)
    requires Inv(p)
    ensures Inv(Step(p, Enqueue(d)))
  {
  }

  /** Moving the oldest queued document to the end of the batch. */
  lemma TakeKeepsInv(p: Pipeline, ev: Event)
    requires Inv(p) && (ev.First? || ev.Take?)
    ensures Inv(Step(p, ev))
  {
  }

  lemma StepKeepsInv(p: Pipeline, ev: Event)
    requires Inv(p)
    ensures Inv(Step(p, ev))
  {
    match ev {
      case Enqueue(d) => EnqueueKeepsInv(p, d);
      case First => TakeKeepsInv(p, ev);
      case Take => TakeKeepsInv(p, ev);
      case Insert(hit) =>
        if p.phase.Running? { SubmitKeepsInv(p, hit); }
      case FlushDone(hit) =>
        if p.phase.Flushing? { FlushKeepsInv(p, hit); }
      case CancelInserting(hit) =>
        if p.phase.Running? { SubmitKeepsInv(p, hit); }
      case _ =>
    }
  }

  lemma {:induction false} PlayOnInv(p: Pipeline, evs: seq<Event>)
    requires Inv(p)
    ensures Inv(PlayOn(p, evs))
  {
    if evs == [] {
    } else {
      PlayOnInv(p, evs[..|evs| - 1]);
      StepKeepsInv(PlayOn(p, evs[..|evs| - 1]), evs[|evs| - 1]);
    }
  }

  /** Nothing accepted is lost from sight, reordered or duplicated on its way, and normal batches are bounded. */
  lemma PipelineConserves(evs: seq<Event>)
    ensures var p := Play(evs);
      && Flatten(p.submitted) + p.flushed + p.abandoned + p.batch + p.queue == p.accepted
      && (forall i :: 0 <= i < |p.submitted| ==> 1 <= |p.submitted[i]| <= 500)
  {
    PlayOnInv(START, evs);
  }

  /** The store is the first-wins map of what was submitted, and under failures still holds nothing else. */
  lemma StoreIsFirstWins(evs: seq<Event>)
    ensures var p := Play(evs);
      && (!p.failed ==> FirstWins(p.db, Flatten(p.submitted) + p.flushed))
      && OnlyFrom(p.db, p.accepted)
  {
    PlayOnInv(START, evs);
  }

  /** First, Takes and Close move exactly the first n documents of the queue into the batch, for every n in bounds. */
  function GatherSteps(n: nat): seq<Event>
    requires n >= 1
  {
    [First] + seq(n - 1, _ => Take) + [Close]
  }

  /** The pipeline after k documents have been taken into a new batch. */
  function Gathered(p: Pipeline, k: nat): Pipeline
    requires 1 <= k <= |p.queue|
  {
    p.(batch := p.queue[..k], queue := p.queue[k..], phase := Draining(BatchLimit(|p.queue| - 1)))
  }

  lemma TakeMoves(p: Pipeline, k: nat)
    requires 1 <= k < |p.queue| && k < BatchLimit(|p.queue| - 1)
    ensures Step(Gathered(p, k), Take) == Gathered(p, k + 1)
  {
  }

  lemma {:induction false} TakesMove(p: Pipeline, k: nat)
    requires p.phase.Waiting? && k < |p.queue| && k < BatchLimit(|p.queue| - 1)
    ensures PlayOn(p, [First] + seq(k, _ => Take)) == Gathered(p, k + 1)
  {
    var evs := [First] + seq(k, _ => Take);
    if k == 0 {
      assert evs[..0] == [] && evs[0] == First;
    } else {
      TakesMove(p, k - 1);
      TakeMoves(p, k);
      assert evs[..k] == [First] + seq(k - 1, _ => Take);
    }
  }

  lemma GatherIsSteps(p: Pipeline, n: nat)
    requires p.phase.Waiting? && 1 <= n <= |p.queue| && n <= BatchLimit(|p.queue| - 1)
    ensures PlayOn(p, GatherSteps(n)) == p.(batch := p.queue[..n], queue := p.queue[n..], phase := Inserting)
  {
    TakesMove(p, n - 1);
    assert GatherSteps(n)[..n] == [First] + seq(n - 1, _ => Take);
  }

  /** Only documents arrive and are taken. */
  ghost predicate Filling(evs: seq<Event>) {
    forall k :: 0 <= k < |evs| ==> evs[k].Enqueue? || evs[k].Take?
  }

  lemma {:induction false} BatchStaysBounded(p: Pipeline, evs: seq<Event>)
    requires p.phase.Waiting? && p.queue != [] && Filling(evs)
    ensures var q := PlayOn(Step(p, First), evs);
      && q.phase == Draining(if |p.queue| > 51 then 500 else 100)
      && 1 <= |q.batch| <= (if |p.queue| > 51 then 500 else 100)
  {
    if evs == [] {
    } else {
      BatchStaysBounded(p, evs[..|evs| - 1]);
    }
  }

  lemma {:induction false} BatchFills(p: Pipeline, n: nat, d: Doc) returns (evs: seq<Event>)
    requires p.phase.Waiting? && p.queue != [] && 1 <= n <= if |p.queue| > 51 then 500 else 100
    ensures Filling(evs) && |PlayOn(Step(p, First), evs).batch| == n
  {
    if n == 1 {
      evs := [];
    } else {
      var init := BatchFills(p, n - 1, d);
      BatchStaysBounded(p, init);
      if PlayOn(Step(p, First), init).queue == [] {
        PlayOnSnoc(Step(p, First), init, Enqueue(d));
        PlayOnSnoc(Step(p, First), init + [Enqueue(d)], Take);
        evs := init + [Enqueue(d)] + [Take];
      } else {
        PlayOnSnoc(Step(p, First), init, Take);
        evs := init + [Take];
      }
    }
  }

  /**
   * With more than 51 documents queued a batch can grow to 500, documents arriving meanwhile included, and not further;
   * with fewer to 100.
   */
  lemma BatchBoundExact(p: Pipeline, n: nat)
    requires p.phase.Waiting? && p.queue != []
    ensures (exists evs :: Filling(evs) && |PlayOn(Step(p, First), evs).batch| == n)
      <==> 1 <= n <= if |p.queue| > 51 then 500 else 100
  {
    if evs :| Filling(evs) && |PlayOn(Step(p, First), evs).batch| == n {
      BatchStaysBounded(p, evs);
    }
    if 1 <= n <= if |p.queue| > 51 then 500 else 100 {
      var evs := BatchFills(p, n, Doc("", ""));
    }
  }

  lemma {:induction false} QueueIsBounded(evs: seq<Event>)
    ensures |Play(evs).queue| <= 20000
  {
    if evs == [] {
    } else {
      QueueIsBounded(evs[..|evs| - 1]);
    }
  }

  /** In every run a document is accepted, at the end of the queue, exactly while fewer than 20,000 are queued. */
  lemma EnqueueExact(evs: seq<Event>, d: Doc)
    ensures var p, q := Play(evs), Play(evs + [Enqueue(d)]);
      && |p.queue| <= 20000
      && (|p.queue| < 20000 ==> q.accepted == p.accepted + [d] && q.queue == p.queue + [d])
      && (|p.queue| == 20000 ==> q == p)
  {
    QueueIsBounded(evs);
    PlayOnSnoc(START, evs, Enqueue(d));
  }

  /** The writer's own steps, with inserts that succeed. */
  ghost predicate Working(evs: seq<Event>) {
    forall ev :: ev in evs ==> ev in {First, Take, Close, StartJob} || (ev.Insert? && AllHit(ev.hit))
  }

  lemma {:induction false} PlayOnCons(p: Pipeline, ev: Event, rest: seq<Event>)
    ensures PlayOn(p, [ev] + rest) == PlayOn(Step(p, ev), rest)
  {
    if rest == [] {
      assert [ev] + rest == [ev] && [ev][..0] == [];
    } else {
      var n := |rest| - 1;
      PlayOnCons(p, ev, rest[..n]);
      assert ([ev] + rest)[..n + 1] == [ev] + rest[..n];
    }
  }

  function NextStep(p: Pipeline): Event {
    match p.phase
    case Draining(_) => Close
    case Inserting => StartJob
    case Running => Insert([])
    case _ => First
  }

  function Distance(phase: Phase): nat {
    match phase
    case Draining(_) => 3
    case Inserting => 2
    case Running => 1
    case _ => 0
  }

  /** From every state before a cancellation the writer can go on until all that was accepted is in the store. */
  lemma {:induction false} WriterCanDrain(p: Pipeline) returns (evs: seq<Event>)
    requires Inv(p) && !p.phase.Flushing? && !p.phase.Stopped?
    ensures Working(evs)
    ensures var q := PlayOn(p, evs);
      && q.phase.Waiting? && q.queue == [] && q.accepted == p.accepted && Sent(q) == p.accepted
      && q.failed == p.failed && (!p.failed ==> FirstWins(q.db, p.accepted))
    decreases |p.queue|, Distance(p.phase)
  {
    if p.phase.Waiting? && p.queue == [] {
      evs := [];
      assert Sent(p) + p.abandoned + p.batch + p.queue == Sent(p);
    } else {
      var ev := NextStep(p);
      StepKeepsInv(p, ev);
      var rest := WriterCanDrain(Step(p, ev));
      PlayOnCons(p, ev, rest);
      evs := [ev] + rest;
    }
  }

  // -------------------------------------------------------------------------
  // Cancellation, and everything that can happen after it
  // -------------------------------------------------------------------------

  /** q is p after later documents have been accepted, and nothing else. */
  ghost predicate OnlyAccepted(p: Pipeline, q: Pipeline) {
    && |p.accepted| <= |q.accepted| && q.accepted[..|p.accepted|] == p.accepted
    && q == p.(queue := p.queue + q.accepted[|p.accepted|..], accepted := q.accepted)
  }

  lemma StoppedStep(p: Pipeline, q: Pipeline, ev: Event)
    requires p.phase.Stopped? && OnlyAccepted(p, q)
    ensures OnlyAccepted(p, Step(q, ev))
  {
  }

  lemma {:induction false} StoppedOnlyAccepts(p: Pipeline, later: seq<Event>)
    requires p.phase.Stopped?
    ensures OnlyAccepted(p, PlayOn(p, later))
  {
    if later == [] {
    } else {
      StoppedOnlyAccepts(p, later[..|later| - 1]);
      StoppedStep(p, PlayOn(p, later[..|later| - 1]), later[|later| - 1]);
    }
  }

  ghost predicate AfterFlush(p: Pipeline, q: Pipeline) {
    exists hit :: OnlyAccepted(Step(p, FlushDone(hit)), q)
  }

  lemma FlushingStep(p: Pipeline, q: Pipeline, ev: Event)
    requires p.phase.Flushing? && OnlyAccepted(p, q)
    ensures OnlyAccepted(p, Step(q, ev)) || AfterFlush(p, Step(q, ev))
  {
    if ev.FlushDone? {
      assert OnlyAccepted(Step(p, FlushDone(ev.hit)), Step(q, ev));
    }
  }

  /** While the final insert is awaited documents are still accepted; they are not part of it. */
  lemma {:induction false} FlushingOnlyAccepts(p: Pipeline, later: seq<Event>)
    requires p.phase.Flushing?
    ensures OnlyAccepted(p, PlayOn(p, later)) || AfterFlush(p, PlayOn(p, later))
  {
    if later == [] {
    } else {
      var q, ev := PlayOn(p, later[..|later| - 1]), later[|later| - 1];
      FlushingOnlyAccepts(p, later[..|later| - 1]);
      if OnlyAccepted(p, q) {
        FlushingStep(p, q, ev);
      } else {
        var hit :| OnlyAccepted(Step(p, FlushDone(hit)), q);
        StoppedStep(Step(p, FlushDone(hit)), q, ev);
      }
    }
  }

  /** Documents that did not reach the store leave it as if they had exactly when their ids are all taken. */
  lemma FirstWinsBeyond(db: map<string, Doc>, docs: seq<Doc>, rest: seq<Doc>)
    requires FirstWins(db, docs)
    ensures FirstWins(db, docs + rest) <==> forall d :: d in rest ==> d.id in db
  {
    var all := docs + rest;
    if forall d :: d in rest ==> d.id in db {
      forall id | id in db
        ensures exists i :: 0 <= i < |all| && IsFirst(all, i) && all[i].id == id && db[id] == all[i]
      {
        var i :| 0 <= i < |docs| && IsFirst(docs, i) && docs[i].id == id && db[id] == docs[i];
        assert IsFirst(all, i) && all[i] == docs[i];
      }
    } else {
      var k :| 0 <= k < |rest| && rest[k].id !in db;
      assert all[|docs| + k] == rest[k];
    }
  }

  /**
   * Cancelled at the queue: whatever follows, everything accepted before the cancellation is inserted, and what stays
   * behind in the queue is exactly what was accepted after it.
   */
  lemma CancelAtQueueFlushes(evs: seq<Event>, later: seq<Event>)
    requires Play(evs).phase.Waiting?
    ensures var before := Play(evs).accepted;
      var q := PlayOn(Step(Play(evs), CancelWaiting), later);
      && |before| <= |q.accepted| && q.accepted[..|before|] == before
      && q.queue == q.accepted[|before|..]
      && (q.phase.Flushing? || q.phase.Stopped?)
      && (q.phase.Stopped? ==> Sent(q) == before && (!q.failed ==> FirstWins(q.db, before)))
  {
    var p := Step(Play(evs), CancelWaiting);
    PlayOnInv(START, evs);
    StepKeepsInv(Play(evs), CancelWaiting);
    PlayOnInv(p, later);
    CancelledQueue(p, later);
    if PlayOn(p, later).phase.Stopped? {
      SentBeforeCancel(PlayOn(p, later), p.accepted);
    }
  }

  lemma CancelledQueue(p: Pipeline, later: seq<Event>)
    requires (p.phase.Stopped? || p.phase.Flushing?) && p.queue == [] && p.abandoned == []
    ensures var q := PlayOn(p, later);
      && (q.phase.Flushing? || q.phase.Stopped?) && q.abandoned == []
      && |p.accepted| <= |q.accepted| && q.accepted[..|p.accepted|] == p.accepted
      && q.queue == q.accepted[|p.accepted|..]
  {
    if p.phase.Stopped? {
      StoppedOnlyAccepts(p, later);
    } else {
      FlushingOnlyAccepts(p, later);
    }
  }

  lemma SentBeforeCancel(q: Pipeline, before: seq<Doc>)
    requires Inv(q) && q.phase.Stopped? && q.abandoned == []
    requires |before| <= |q.accepted| && q.accepted[..|before|] == before && q.queue == q.accepted[|before|..]
    ensures Sent(q) == before && (!q.failed ==> FirstWins(q.db, before))
  {
    assert Sent(q) + q.abandoned + q.batch == Sent(q);
    assert Sent(q) + q.queue == before + q.queue;
    assert (Sent(q) + q.queue)[..|before|] == Sent(q);
  }

  /** What a cancellation at the bulk insert leaves behind: the queue, and the batch if no thread has started on it. */
  function Behind(p: Pipeline): seq<Doc> {
    (if p.phase.Running? then [] else p.batch) + p.queue
  }

  lemma CancelledInsert(p: Pipeline, hit: seq<bool>)
    requires Inv(p) && (p.phase.Inserting? || p.phase.Running?)
    ensures var r := Step(p, CancelInserting(hit));
      && Inv(r) && r.phase.Stopped? && r.accepted == p.accepted
      && Sent(r) + Behind(p) == p.accepted
      && r.abandoned + r.queue == Behind(p)
      && r.db == (if p.phase.Running? then InsertMany(p.db, p.batch, hit) else p.db)
  {
    var r := Step(p, CancelInserting(hit));
    StepKeepsInv(p, CancelInserting(hit));
    if p.phase.Running? {
      FlattenAppend(p.submitted, p.batch);
      assert Sent(r) + r.abandoned + r.batch == Sent(r);
      assert Behind(p) == r.queue;
    } else {
      assert Sent(r) + r.abandoned + r.batch == Sent(r) + p.batch;
      assert Sent(r) + p.batch + p.queue == Sent(r) + Behind(p);
    }
  }

  lemma CompleteWhenNothingBehind(sent: seq<Doc>, behind: seq<Doc>, all: seq<Doc>)
    requires sent + behind == all
    ensures sent == all <==> behind == []
  {
    if behind == [] {
      assert sent + behind == sent;
    } else {
      assert |all| > |sent|;
    }
  }

  /**
   * Cancelled at the bulk insert: nothing more is ever written, and what stays behind is Behind and everything accepted
   * later. So all was submitted exactly when the job had started and the queue was empty, and if the inserts succeeded
   * the store is complete exactly when the ids left behind are in it already.
   */
  lemma CancelAtInsertExact(evs: seq<Event>, hit: seq<bool>, later: seq<Event>)
    requires Play(evs).phase.Inserting? || Play(evs).phase.Running?
    ensures var p := Play(evs);
      var q := PlayOn(Step(p, CancelInserting(hit)), later);
      && q.phase.Stopped?
      && q.db == (if p.phase.Running? then InsertMany(p.db, p.batch, hit) else p.db)
      && |p.accepted| <= |q.accepted| && q.accepted[..|p.accepted|] == p.accepted
      && Sent(q) + Behind(p) == p.accepted
      && q.abandoned + q.queue == Behind(p) + q.accepted[|p.accepted|..]
      && (Sent(q) == p.accepted <==> p.phase.Running? && p.queue == [])
      && (!q.failed ==> (FirstWins(q.db, p.accepted) <==> forall d :: d in Behind(p) ==> d.id in q.db))
  {
    PlayOnInv(START, evs);
    CancelledInsert(Play(evs), hit);
    var r := Step(Play(evs), CancelInserting(hit));
    StoppedOnlyAccepts(r, later);
    AfterCancel(Play(evs), r, PlayOn(r, later));
  }

  lemma AfterCancel(p: Pipeline, r: Pipeline, q: Pipeline)
    requires Inv(p) && (p.phase.Inserting? || p.phase.Running?)
    requires Inv(r) && r.phase.Stopped? && r.accepted == p.accepted && OnlyAccepted(r, q)
    requires Sent(r) + Behind(p) == p.accepted && r.abandoned + r.queue == Behind(p)
    ensures q.phase.Stopped? && q.db == r.db
    ensures |p.accepted| <= |q.accepted| && q.accepted[..|p.accepted|] == p.accepted
    ensures Sent(q) + Behind(p) == p.accepted
    ensures q.abandoned + q.queue == Behind(p) + q.accepted[|p.accepted|..]
    ensures Sent(q) == p.accepted <==> p.phase.Running? && p.queue == []
    ensures !q.failed ==> (FirstWins(q.db, p.accepted) <==> forall d :: d in Behind(p) ==> d.id in q.db)
  {
    var after := q.accepted[|p.accepted|..];
    assert q.abandoned + q.queue == (r.abandoned + r.queue) + after;
    CompleteWhenNothingBehind(Sent(r), Behind(p), p.accepted);
    if !q.failed {
      FirstWinsBeyond(q.db, Sent(r), Behind(p));
    }
  }

  lemma OneOfTwoGathered(d: Doc, e: Doc)
    ensures Play([Enqueue(d), Enqueue(e), First, Close])
      == Pipeline([e], [d], Inserting, map[], [d, e], [], [], [], false)
  {
    var evs := [Enqueue(d), Enqueue(e), First, Close];
    PlayOnSnoc(START, [], evs[0]);
    PlayOnSnoc(START, [evs[0]], evs[1]);
    PlayOnSnoc(START, [evs[0], evs[1]], evs[2]);
    PlayOnSnoc(START, [evs[0], evs[1], evs[2]], evs[3]);
    assert [] + [evs[0]] == [evs[0]];
    assert [evs[0]] + [evs[1]] == [evs[0], evs[1]];
    assert [evs[0], evs[1]] + [evs[2]] == [evs[0], evs[1], evs[2]];
    assert [evs[0], evs[1], evs[2]] + [evs[3]] == evs;
    assert PlayOn(START, [evs[0], evs[1]]).queue == [d, e];
  }

  /** Four steps after which a cancellation loses both accepted documents, or, once the job has started, the second. */
  lemma CancelLoses(d: Doc, e: Doc, hit: seq<bool>)
    requires d.id != e.id && AllHit(hit)
    ensures var p := Play([Enqueue(d), Enqueue(e), First, Close]);
      && p.phase.Inserting? && p.accepted == [d, e]
      && Step(p, CancelInserting(hit)).db == map[]
      && Step(Step(p, StartJob), CancelInserting(hit)).db == map[d.id := d]
      && !FirstWins(map[], p.accepted) && !FirstWins(map[d.id := d], p.accepted)
  {
    OneOfTwoGathered(d, e);
    assert InsertMany(map[], [d], hit) == InsertOne(InsertMany(map[], [], hit), d);
    assert [d, e][1].id !in map[d.id := d];
  }

  // -------------------------------------------------------------------------
  // The writer object
  // -------------------------------------------------------------------------

  class BatchWriter {
    var queue: seq<Doc>
    var db: map<string, Doc>

    constructor ()
      ensures queue == [] && db == map[]
    {
      queue, db := [], map[];
    }

    /** A full queue drops the document silently. */
    method Append(d: Doc)
      modifies this`queue
      ensures queue == if |old(queue)| >= QUEUE_SIZE then old(queue) else old(queue) + [d]
    {
      if |queue| < QUEUE_SIZE {
        queue := queue + [d];
      }
    }

    /** One batch; open[k] tells whether the 40 ms window is still open at the k-th look at the clock. */
    method Gather(open: seq<bool>) returns (batch: seq<Doc>)
      requires queue != []
      modifies this`queue
      ensures |batch| <= |old(queue)| && batch == old(queue)[..|batch|] && queue == old(queue)[|batch|..]
      ensures 1 <= |batch| <= BatchLimit(|old(queue)| - 1)
      ensures |batch| == BatchLimit(|old(queue)| - 1) || queue == []
        || |batch| > |open| || !open[|batch| - 1]
      ensures |open| >= 500 && (forall k :: 0 <= k < |open| ==> open[k]) ==>
        |batch| == if |old(queue)| <= 500 then |old(queue)| else 500
    {
      batch := [queue[0]];
      queue := queue[1..];
      var limit := BatchLimit(|queue|);
      while |batch| < limit && |batch| <= |open| && open[|batch| - 1] && queue != []
        invariant batch + queue == old(queue)
        invariant 1 <= |batch| <= limit
        decreases |queue|
      {
        batch := batch + [queue[0]];
        queue := queue[1..];
      }
    }

    method BulkInsert(batch: seq<Doc>, hit: seq<bool>)
      modifies this`db
      ensures db == InsertMany(old(db), batch, hit)
    {
      for i := 0 to |batch|
        invariant db == InsertMany(old(db), batch[..i], hit)
      {
        assert batch[..i + 1][..i] == batch[..i];
        if (i >= |hit| || hit[i]) && batch[i].id !in db {
          db := db[batch[i].id := batch[i]];
        }
      }
      assert batch[..|batch|] == batch;
    }

    /** The flush on cancellation at the queue. */
    method Flush(hit: seq<bool>)
      modifies this
      ensures queue == [] && db == InsertMany(old(db), old(queue), hit)
    {
      var batch: seq<Doc> := [];
      while queue != []
        invariant batch + queue == old(queue) && db == old(db)
        decreases |queue|
      {
        batch := batch + [queue[0]];
        queue := queue[1..];
      }
      assert batch + [] == batch;
      if batch != [] {
        BulkInsert(batch, hit);
      }
    }
  }
}
