/**
 * The per-target build admission queue. A ghost history follows every request from its submission to
 * where it ended up, and every operation keeps the queue and the history in step.
 */
module Builds {

  import opened Options

  datatype Kind = Interactive | Controller

  datatype Request = Request(id: string, key: string, kind: Kind, version: string, input: string, sequence: nat)

  datatype Submission = Queued(request: Request) | ReplacedPendingInteractive(request: Request, superseded: Request)

  datatype Completion = Completion(finished: Request, next: Option<Request>)

  datatype KeyQueue = KeyQueue(running: Option<Request>, interactive: Option<Request>, controllers: seq<Request>)

  datatype Fate = Pending | Running | Finished | Superseded | Removed

  const EMPTY: KeyQueue := KeyQueue(None, None, [])

  /** Where 64-bit sequence numbers stop growing. */
  const MAX_SEQUENCE: nat := 0xFFFF_FFFF_FFFF_FFFF

  // ---------------------------------------------------------------- what an operation does to one queue

  /** The next request of a queue: the oldest controller, or else the waiting interactive one. */
  function Next(q: KeyQueue): Option<Request> {
    if q.controllers != [] then Some(q.controllers[0]) else q.interactive
  }

  function Admit(q: KeyQueue): KeyQueue {
    if q.controllers != [] then KeyQueue(Next(q), q.interactive, q.controllers[1..])
    else KeyQueue(Next(q), None, [])
  }

  function Without(requests: seq<Request>, id: string): (r: seq<Request>)
    ensures forall x :: x in r <==> x in requests && x.id != id
  {
    if requests == [] then []
    else
      var last := requests[|requests| - 1];
      Without(requests[..|requests| - 1], id) + if last.id != id then [last] else []
  }

  /** What a removal takes out: the interactive request if the name is its own, otherwise controllers. */
  function Cancelled(q: KeyQueue, id: string): (r: seq<Request>) {
    if q.interactive.Some? && q.interactive.value.id == id then [q.interactive.value] else Named(q.controllers, id)
  }

  function Named(requests: seq<Request>, id: string): (r: seq<Request>)
    ensures forall x :: x in r <==> x in requests && x.id == id
  {
    if requests == [] then []
    else
      var last := requests[|requests| - 1];
      Named(requests[..|requests| - 1], id) + if last.id == id then [last] else []
  }

  function Remove(q: KeyQueue, id: string): KeyQueue {
    if q.interactive.Some? && q.interactive.value.id == id then q.(interactive := None)
    else q.(controllers := Without(q.controllers, id))
  }

  // ---------------------------------------------------------------- the history

  /** A request meets its fate. */
  function Mark(fates: seq<Fate>, r: Request, fate: Fate): (f: seq<Fate>)
    ensures |f| == |fates|
  {
    if 1 <= r.sequence <= |fates| then fates[r.sequence - 1 := fate] else fates
  }

  function MarkAll(fates: seq<Fate>, requests: seq<Request>, fate: Fate): (f: seq<Fate>)
    ensures |f| == |fates|
  {
    if requests == [] then fates
      else Mark(MarkAll(fates, requests[..|requests| - 1], fate), requests[|requests| - 1], fate)
  }

  lemma {:induction false} MarkedAll(fates: seq<Fate>, requests: seq<Request>, fate: Fate, i: nat)
    requires i < |fates|
    ensures MarkAll(fates, requests, fate)[i]
      == (if exists r :: r in requests && r.sequence == i + 1 then fate else fates[i])
  {
    if requests == [] {
    } else {
      var n := |requests| - 1;
      MarkedAll(fates, requests[..n], fate, i);
      assert requests == requests[..n] + [requests[n]];
    }
  }

  datatype History = History(submitted: seq<Request>, fates: seq<Fate>, grants: seq<Request>)

  ghost predicate Owned(h: History, k: string, r: Request, fate: Fate) {
    && 1 <= r.sequence <= |h.submitted| == |h.fates| && h.submitted[r.sequence - 1] == r && r.key == k
    && h.fates[r.sequence - 1] == fate
  }

  /** No interactive request for the key was submitted after this one. */
  ghost predicate Newest(h: History, k: string, r: Request) {
    forall i :: 0 <= i < |h.submitted| && h.submitted[i].key == k && h.submitted[i].kind == Interactive ==>
      i < r.sequence
  }

  ghost predicate Increasing(requests: seq<Request>) {
    forall i, j :: 0 <= i < j < |requests| ==> requests[i].sequence < requests[j].sequence
  }

  /** What the queue of a key holds is where the history says it is. */
  ghost predicate Holds(h: History, k: string, q: KeyQueue) {
    && (q.running.Some? ==> Owned(h, k, q.running.value, Running))
    && (q.interactive.Some? ==>
          q.interactive.value.kind == Interactive && Owned(h, k, q.interactive.value, Pending)
            && Newest(h, k, q.interactive.value))
    && (forall c <- q.controllers :: c.kind == Controller && Owned(h, k, c, Pending))
    && Increasing(q.controllers)
  }

  /** A request of the key that the history has pending or running is there. */
  ghost predicate Located(h: History, k: string, q: KeyQueue, i: nat)
    requires i < |h.submitted| == |h.fates|
  {
    && (h.fates[i] == Running ==> q.running == Some(h.submitted[i]))
    && (h.fates[i] == Pending ==>
          if h.submitted[i].kind == Interactive then q.interactive == Some(h.submitted[i])
            else h.submitted[i] in q.controllers)
  }

  /** Controllers of the key were granted in the order of their submission, and before all that still wait. */
  ghost predicate InTurn(h: History, k: string, q: KeyQueue) {
    && (forall g <- h.grants :: g.sequence <= |h.submitted|)
    && (forall g <- h.grants, c <- q.controllers :: g.key == k && g.kind == Controller ==> g.sequence < c.sequence)
    && (forall i, j :: 0 <= i < j < |h.grants| && IsController(h.grants[i], k) && IsController(h.grants[j], k) ==>
          h.grants[i].sequence < h.grants[j].sequence)
  }

  predicate IsController(r: Request, k: string) {
    r.key == k && r.kind == Controller
  }

  ghost predicate KeyTracked(h: History, k: string, q: KeyQueue) {
    && |h.submitted| == |h.fates|
    && Holds(h, k, q) && InTurn(h, k, q)
    && forall i :: 0 <= i < |h.submitted| && h.submitted[i].key == k ==> Located(h, k, q, i)
  }

  ghost predicate Numbered(h: History) {
    forall i :: 0 <= i < |h.submitted| ==> h.submitted[i].sequence == i + 1
  }

  function Queue(queues: map<string, KeyQueue>, k: string): KeyQueue {
    if k in queues then queues[k] else EMPTY
  }

  /** Sequence numbers count submissions, and every queue agrees with the history. */
  ghost predicate Tracked(h: History, queues: map<string, KeyQueue>) {
    && |h.submitted| == |h.fates|
    && Numbered(h)
    && forall k :: KeyTracked(h, k, Queue(queues, k))
  }

  /** Nothing changes for another key. */
  ghost predicate SameElsewhere(h: History, h': History, k: string) {
    && |h.submitted| == |h.fates| && |h'.submitted| == |h'.fates|
    && h.submitted <= h'.submitted && h.grants <= h'.grants
    && (forall i :: 0 <= i < |h.submitted| && h.submitted[i].key != k ==> h'.fates[i] == h.fates[i])
    && (forall i :: |h.submitted| <= i < |h'.submitted| ==> h'.submitted[i].key == k)
    && (forall i :: |h.grants| <= i < |h'.grants| ==> h'.grants[i].key == k && h'.grants[i].sequence <= |h'.submitted|)
  }

  lemma ElsewhereTracked(h: History, h': History, k: string, other: string, q: KeyQueue)
    requires SameElsewhere(h, h', k) && other != k && KeyTracked(h, other, q)
    ensures KeyTracked(h', other, q)
  {
    forall i | 0 <= i < |h'.submitted| && h'.submitted[i].key == other
      ensures Located(h', other, q, i)
    {
      assert i < |h.submitted| && h'.submitted[i] == h.submitted[i];
      assert Located(h, other, q, i);
    }
  }

  lemma Retracked(h: History, h': History, k: string, queues: map<string, KeyQueue>, q: KeyQueue)
    requires Tracked(h, queues) && SameElsewhere(h, h', k) && KeyTracked(h', k, q) && Numbered(h')
    ensures Tracked(h', queues[k := q])
  {
    var queues' := queues[k := q];
    SameLengths(h', k, q);
    hide KeyTracked; hide SameElsewhere;
    forall other
      ensures KeyTracked(h', other, Queue(queues', other))
    {
      if other != k {
        assert KeyTracked(h, other, Queue(queues, other));
        ElsewhereTracked(h, h', k, other, Queue(queues, other));
      }
    }
  }

  lemma SameLengths(h: History, k: string, q: KeyQueue)
    requires KeyTracked(h, k, q)
    ensures |h.submitted| == |h.fates|
  {
  }

  // ---------------------------------------------------------------- the steps keep queue and history together

  function Submitted(q: KeyQueue, r: Request): KeyQueue {
    if r.kind == Controller then q.(controllers := q.controllers + [r]) else q.(interactive := Some(r))
  }

  /** The history of a submission: a waiting interactive request is superseded by an interactive one. */
  function AfterSubmission(h: History, q: KeyQueue, r: Request): History {
    var fates := if r.kind == Interactive && q.interactive.Some? then Mark(h.fates, q.interactive.value, Superseded)
      else h.fates;
    History(h.submitted + [r], fates + [Pending], h.grants)
  }

  function AfterGrant(h: History, q: KeyQueue): History {
    match Next(q)
    case None => h
    case Some(r) => History(h.submitted, Mark(h.fates, r, Running), h.grants + [r])
  }

  function AfterFinish(h: History, r: Request): History {
    h.(fates := Mark(h.fates, r, Finished))
  }

  function AfterRemoval(h: History, q: KeyQueue, id: string): History {
    h.(fates := MarkAll(h.fates, Cancelled(q, id), Removed))
  }

  /** The moved requests of the key meet a fate; the others, if old, keep theirs. */
  ghost predicate Moves(h: History, h': History, k: string, moved: seq<Request>, fate: Fate) {
    && |h.submitted| == |h.fates| && |h'.submitted| == |h'.fates| && h.submitted <= h'.submitted
    && (forall i :: 0 <= i < |h.submitted| ==> h'.fates[i] == if h.submitted[i] in moved then fate else h.fates[i])
    && (forall m <- moved :: m.key == k)
  }

  lemma StaysOwned(h: History, h': History, k: string, moved: seq<Request>, fate: Fate, r: Request, own: Fate)
    requires Moves(h, h', k, moved, fate) && Owned(h, k, r, own) && r !in moved
    ensures Owned(h', k, r, own)
  {
  }

  lemma BecomesOwned(h: History, h': History, k: string, moved: seq<Request>, fate: Fate, r: Request, own: Fate)
    requires Moves(h, h', k, moved, fate) && Owned(h, k, r, own) && r in moved
    ensures Owned(h', k, r, fate)
  {
  }

  /** Over any stretch of a run: what is over stays as it ended, and what runs can only finish. */
  ghost predicate Advances(h: History, h': History) {
    && |h.submitted| == |h.fates| && |h'.submitted| == |h'.fates| && h.submitted <= h'.submitted
      && h.grants <= h'.grants
    && forall i :: 0 <= i < |h.submitted| ==> FateAdvances(h.fates[i], h'.fates[i])
  }

  predicate FateAdvances(before: Fate, after: Fate) {
    before == after || before == Pending || (before == Running && after == Finished)
  }

  lemma AdvancesOn(a: History, b: History, c: History)
    requires Advances(a, b) && Advances(b, c)
    ensures Advances(a, c)
  {
    forall i | 0 <= i < |a.submitted|
      ensures FateAdvances(a.fates[i], c.fates[i])
    {
      assert FateAdvances(a.fates[i], b.fates[i]) && FateAdvances(b.fates[i], c.fates[i]);
    }
  }

  lemma AdvancesSelf(h: History)
    requires |h.submitted| == |h.fates|
    ensures Advances(h, h)
  {
  }

  lemma MovesAdvance(h: History, h': History, k: string, moved: seq<Request>, fate: Fate, own: Fate)
    requires Moves(h, h', k, moved, fate) && Numbered(h) && h.grants <= h'.grants
    requires FateAdvances(own, fate) && forall m <- moved :: Owned(h, k, m, own)
    ensures Advances(h, h')
  {
    forall i | 0 <= i < |h.submitted|
      ensures FateAdvances(h.fates[i], h'.fates[i])
    {
      if h.submitted[i] in moved {
        assert Owned(h, k, h.submitted[i], own);
      }
    }
  }

  lemma SubmissionMoves(h: History, k: string, q: KeyQueue, r: Request)
    requires KeyTracked(h, k, q) && Numbered(h) && r.key == k && r.sequence == |h.submitted| + 1
    ensures var moved := if r.kind == Interactive && q.interactive.Some? then [q.interactive.value] else [];
            Moves(h, AfterSubmission(h, q, r), k, moved, Superseded) && (forall m <- moved :: Owned(h, k, m, Pending))
  {
    hide InTurn; hide Located;
  }

  lemma GrantMoves(h: History, k: string, q: KeyQueue)
    requires KeyTracked(h, k, q) && Numbered(h) && Next(q).Some?
    ensures Moves(h, AfterGrant(h, q), k, [Next(q).value], Running) && Owned(h, k, Next(q).value, Pending)
  {
    hide InTurn; hide Located;
  }

  lemma RemovalMoves(h: History, k: string, q: KeyQueue, id: string)
    requires KeyTracked(h, k, q) && Numbered(h)
    ensures Moves(h, AfterRemoval(h, q, id), k, Cancelled(q, id), Removed)
    ensures forall m <- Cancelled(q, id) :: Owned(h, k, m, Pending)
  {
    hide InTurn; hide Located;
    var gone := Cancelled(q, id);
    forall i | 0 <= i < |h.fates|
      ensures MarkAll(h.fates, gone, Removed)[i] == if h.submitted[i] in gone then Removed else h.fates[i]
    {
      MarkedAll(h.fates, gone, Removed, i);
    }
  }

  lemma SubmissionHolds(h: History, h': History, k: string, q: KeyQueue, r: Request, moved: seq<Request>)
    requires Holds(h, k, q) && r.key == k && r.sequence == |h.submitted| + 1
    requires moved == if r.kind == Interactive && q.interactive.Some? then [q.interactive.value] else []
    requires Moves(h, h', k, moved, Superseded) && h'.submitted == h.submitted + [r]
    requires h'.fates[|h.submitted|] == Pending
    ensures Holds(h', k, Submitted(q, r))
  {
    hide Moves; hide Owned;
    var q' := Submitted(q, r);
    Newly(h, h', k, r, moved);
    forall x, own | x !in moved && Owned(h, k, x, own)
      ensures Owned(h', k, x, own)
    {
      StaysOwned(h, h', k, moved, Superseded, x, own);
    }
    OneFate(h, k, q);
    InRange(h, k, q);
  }

  /** The request submitted last. */
  lemma Newly(h: History, h': History, k: string, r: Request, moved: seq<Request>)
    requires Moves(h, h', k, moved, Superseded) && h'.submitted == h.submitted + [r]
    requires h'.fates[|h.submitted|] == Pending
    requires r.key == k && r.sequence == |h.submitted| + 1
    ensures Owned(h', k, r, Pending) && Newest(h', k, r)
  {
  }

  /** What runs does not wait, and what waits as interactive is no controller. */
  lemma OneFate(h: History, k: string, q: KeyQueue)
    requires Holds(h, k, q)
    ensures q.running.Some? ==> q.running != q.interactive && q.running.value !in q.controllers
    ensures q.interactive.Some? ==> q.interactive.value !in q.controllers
  {
  }

  lemma InRange(h: History, k: string, q: KeyQueue)
    requires Holds(h, k, q)
    ensures forall c <- q.controllers :: c.sequence <= |h.submitted|
    ensures q.interactive.Some? ==> q.interactive.value.sequence <= |h.submitted|
  {
  }

  lemma SubmissionStep(h: History, k: string, q: KeyQueue, r: Request)
    requires KeyTracked(h, k, q) && Numbered(h) && r.key == k && r.sequence == |h.submitted| + 1
    ensures KeyTracked(AfterSubmission(h, q, r), k, Submitted(q, r)) && SameElsewhere(h, AfterSubmission(h, q, r), k)
    ensures Numbered(AfterSubmission(h, q, r)) && Advances(h, AfterSubmission(h, q, r))
  {
    hide Holds; hide Owned; hide Advances;
    var h', q' := AfterSubmission(h, q, r), Submitted(q, r);
    var moved := if r.kind == Interactive && q.interactive.Some? then [q.interactive.value] else [];
    SubmissionMoves(h, k, q, r);
    MovesAdvance(h, h', k, moved, Superseded, Pending);
    SubmissionHolds(h, h', k, q, r, moved);
    OneFate(h, k, q);
    forall i | 0 <= i < |h'.submitted| && h'.submitted[i].key == k
      ensures Located(h', k, q', i)
    {
      if i < |h.submitted| {
        assert Located(h, k, q, i);
      }
    }
  }

  lemma GrantHolds(h: History, h': History, k: string, q: KeyQueue)
    requires Holds(h, k, q) && q.running.None? && Next(q).Some? && h'.submitted == h.submitted
    requires Moves(h, h', k, [Next(q).value], Running) && Owned(h, k, Next(q).value, Pending)
    ensures Holds(h', k, Admit(q))
  {
    hide Moves; hide Owned;
    var r := Next(q).value;
    BecomesOwned(h, h', k, [r], Running, r, Pending);
    forall x, own | x != r && Owned(h, k, x, own)
      ensures Owned(h', k, x, own)
    {
      StaysOwned(h, h', k, [r], Running, x, own);
    }
    OneFate(h, k, q);
    FirstOnly(q.controllers);
  }

  lemma FirstOnly(requests: seq<Request>)
    requires Increasing(requests)
    ensures requests != [] ==> requests[0] !in requests[1..] && Increasing(requests[1..])
    ensures requests != [] ==> forall c <- requests[1..] :: requests[0].sequence < c.sequence
  {
    if requests != [] {
      forall i, j | 0 <= i < j < |requests| - 1
        ensures requests[1..][i].sequence < requests[1..][j].sequence
      {
        assert requests[i + 1].sequence < requests[j + 1].sequence;
      }
    }
  }

  lemma GrantInTurn(h: History, h': History, k: string, q: KeyQueue)
    requires Holds(h, k, q) && InTurn(h, k, q) && Next(q).Some? && h'.submitted == h.submitted
    requires h'.grants == h.grants + [Next(q).value]
    ensures InTurn(h', k, Admit(q))
  {
    FirstOnly(q.controllers);
    InRange(h, k, q);
    hide Owned; hide Newest; hide Increasing;
    var r := Next(q).value;
    forall c | c in Admit(q).controllers
      ensures c in q.controllers
    {
    }
  }

  lemma GrantStep(h: History, k: string, q: KeyQueue)
    requires KeyTracked(h, k, q) && Numbered(h) && q.running.None?
    ensures KeyTracked(AfterGrant(h, q), k, Admit(q)) && SameElsewhere(h, AfterGrant(h, q), k)
    ensures Numbered(AfterGrant(h, q)) && Advances(h, AfterGrant(h, q))
  {
    hide Holds; hide InTurn;
    var h', q' := AfterGrant(h, q), Admit(q);
    if Next(q).Some? {
      GrantMoves(h, k, q);
      MovesAdvance(h, h', k, [Next(q).value], Running, Pending);
      GrantHolds(h, h', k, q);
      GrantInTurn(h, h', k, q);
      OneFate(h, k, q);
      forall i | 0 <= i < |h'.submitted| && h'.submitted[i].key == k
        ensures Located(h', k, q', i)
      {
        assert Located(h, k, q, i);
      }
    } else {
      assert q' == q;
    }
  }

  lemma FinishHolds(h: History, h': History, k: string, q: KeyQueue)
    requires Holds(h, k, q) && q.running.Some? && h'.submitted == h.submitted
    requires Moves(h, h', k, [q.running.value], Finished)
    ensures Holds(h', k, q.(running := None))
  {
    hide Moves; hide Owned;
    var r := q.running.value;
    forall x, own | x != r && Owned(h, k, x, own)
      ensures Owned(h', k, x, own)
    {
      StaysOwned(h, h', k, [r], Finished, x, own);
    }
    OneFate(h, k, q);
  }

  lemma FinishMoves(h: History, k: string, q: KeyQueue)
    requires KeyTracked(h, k, q) && Numbered(h) && q.running.Some?
    ensures Moves(h, AfterFinish(h, q.running.value), k, [q.running.value], Finished)
    ensures Owned(h, k, q.running.value, Running)
  {
    hide InTurn; hide Located;
  }

  lemma FinishStep(h: History, k: string, q: KeyQueue)
    requires KeyTracked(h, k, q) && Numbered(h) && q.running.Some?
    ensures KeyTracked(AfterFinish(h, q.running.value), k, q.(running := None))
    ensures SameElsewhere(h, AfterFinish(h, q.running.value), k) && Numbered(AfterFinish(h, q.running.value))
    ensures Advances(h, AfterFinish(h, q.running.value))
  {
    hide Holds;
    var h', q' := AfterFinish(h, q.running.value), q.(running := None);
    FinishMoves(h, k, q);
    MovesAdvance(h, h', k, [q.running.value], Finished, Running);
    FinishHolds(h, h', k, q);
    forall i | 0 <= i < |h'.submitted| && h'.submitted[i].key == k
      ensures Located(h', k, q', i)
    {
      assert Located(h, k, q, i);
    }
  }

  lemma {:induction false} WithoutIncreasing(requests: seq<Request>, id: string)
    requires Increasing(requests)
    ensures Increasing(Without(requests, id))
  {
    if requests == [] {
    } else {
      WithoutIncreasing(requests[..|requests| - 1], id);
    }
  }

  lemma RemovalHolds(h: History, h': History, k: string, q: KeyQueue, id: string)
    requires Holds(h, k, q) && h'.submitted == h.submitted
    requires Moves(h, h', k, Cancelled(q, id), Removed)
    ensures Holds(h', k, Remove(q, id))
  {
    hide Moves; hide Owned; hide Without; hide Named;
    var gone := Cancelled(q, id);
    forall x, own | x !in gone && Owned(h, k, x, own)
      ensures Owned(h', k, x, own)
    {
      StaysOwned(h, h', k, gone, Removed, x, own);
    }
    OneFate(h, k, q);
    WithoutIncreasing(q.controllers, id);
  }

  lemma RemovalStep(h: History, k: string, q: KeyQueue, id: string)
    requires KeyTracked(h, k, q) && Numbered(h)
    ensures KeyTracked(AfterRemoval(h, q, id), k, Remove(q, id)) && SameElsewhere(h, AfterRemoval(h, q, id), k)
    ensures Numbered(AfterRemoval(h, q, id)) && Advances(h, AfterRemoval(h, q, id))
  {
    hide Holds; hide Advances; hide Without; hide Named; hide MarkAll;
    var h', q' := AfterRemoval(h, q, id), Remove(q, id);
    RemovalMoves(h, k, q, id);
    MovesAdvance(h, h', k, Cancelled(q, id), Removed, Pending);
    RemovalHolds(h, h', k, q, id);
    OneFate(h, k, q);
    forall i | 0 <= i < |h'.submitted| && h'.submitted[i].key == k
      ensures Located(h', k, q', i)
    {
      assert Located(h, k, q, i);
    }
  }

  // ---------------------------------------------------------------- what the history of every run shows

  /** A request is in one place: what the history says is pending or running is what the queue holds. */
  lemma OnePlace(h: History, queues: map<string, KeyQueue>, i: nat)
    requires Tracked(h, queues) && i < |h.submitted|
    ensures var r := h.submitted[i]; var q := Queue(queues, r.key);
            && (h.fates[i] == Running <==> q.running == Some(r))
            && (h.fates[i] == Pending <==> q.interactive == Some(r) || r in q.controllers)
  {
    var r := h.submitted[i];
    assert KeyTracked(h, r.key, Queue(queues, r.key));
    assert Located(h, r.key, Queue(queues, r.key), i);
  }

  /** A target owns at most one running build. */
  lemma OneRunning(h: History, queues: map<string, KeyQueue>, i: nat, j: nat)
    requires Tracked(h, queues) && i < |h.submitted| && j < |h.submitted|
    requires h.submitted[i].key == h.submitted[j].key && h.fates[i] == h.fates[j] == Running
    ensures i == j
  {
    hide KeyTracked;
    OnePlace(h, queues, i);
    OnePlace(h, queues, j);
  }

  /** Controllers are granted in the order of their submission: none that came earlier still waits, or comes later. */
  lemma FirstInFirstOut(h: History, queues: map<string, KeyQueue>, g: nat, i: nat)
    requires Tracked(h, queues) && g < |h.grants| && h.grants[g].kind == Controller
    requires i < |h.submitted| && IsController(h.submitted[i], h.grants[g].key) && i + 1 < h.grants[g].sequence
    ensures h.fates[i] != Pending && h.submitted[i] !in h.grants[g..]
  {
    var k := h.grants[g].key;
    var q := Queue(queues, k);
    assert KeyTracked(h, k, q) && Located(h, k, q, i);
    assert h.grants[g] in h.grants;
  }

  /** Fair for an idle key: the oldest controller, else the very newest interactive request, else nothing waits. */
  ghost predicate Fair(h: History, k: string, granted: Option<Request>)
    requires |h.submitted| == |h.fates|
  {
    match granted
    case None => forall i :: 0 <= i < |h.submitted| && h.submitted[i].key == k ==> h.fates[i] != Pending
    case Some(r) =>
      && Owned(h, k, r, Pending)
      && (r.kind == Controller ==>
            forall i :: 0 <= i < r.sequence - 1 && IsController(h.submitted[i], k) ==> h.fates[i] != Pending)
      && (r.kind == Interactive ==>
            Newest(h, k, r) && forall i :: 0 <= i < |h.submitted| && IsController(h.submitted[i], k) ==>
              h.fates[i] != Pending)
  }

  lemma NextIsFair(h: History, k: string, q: KeyQueue)
    requires KeyTracked(h, k, q) && Numbered(h)
    ensures Fair(h, k, Next(q))
  {
    forall i | 0 <= i < |h.submitted| && h.submitted[i].key == k
      ensures Located(h, k, q, i)
    {
    }
    FirstOnly(q.controllers);
  }

  /** Whether the running build may publish. */
  predicate Publishable(q: KeyQueue, id: string) {
    && q.running.Some? && q.running.value.id == id
    && (q.interactive.Some? ==> q.interactive.value.sequence <= q.running.value.sequence)
  }

  predicate RunsInteractive(q: KeyQueue, id: string) {
    q.running.Some? && q.running.value.id == id && q.running.value.kind == Interactive
  }

  /** An interactive request that was submitted after the given one waits. */
  ghost predicate NewerWaits(h: History, k: string, r: Request)
    requires |h.submitted| == |h.fates|
  {
    exists i :: 0 <= i < |h.submitted| && r.sequence <= i && h.submitted[i].key == k
                && h.submitted[i].kind == Interactive && h.fates[i] == Pending
  }

  /** The running build may publish unless an interactive request submitted after it waits. */
  lemma PublishableUnlessNewer(h: History, k: string, q: KeyQueue, id: string)
    requires KeyTracked(h, k, q) && Numbered(h) && q.running.Some? && q.running.value.id == id
    ensures Publishable(q, id) <==> !NewerWaits(h, k, q.running.value)
  {
    hide InTurn;
    OneFate(h, k, q);
    if q.interactive.Some? {
      var i := q.interactive.value.sequence - 1;
      assert h.submitted[i].key == k && h.fates[i] == Pending;
    }
    forall i | 0 <= i < |h.submitted| && h.submitted[i].key == k
      ensures Located(h, k, q, i)
    {
    }
  }

  /** A running interactive build may publish exactly when no interactive request waits at all. */
  lemma InteractivePublishes(h: History, k: string, q: KeyQueue, id: string)
    requires KeyTracked(h, k, q) && Numbered(h)
    requires RunsInteractive(q, id)
    ensures Publishable(q, id) <==> q.interactive.None?
  {
    hide InTurn; hide Located;
    OneFate(h, k, q);
  }

  // ---------------------------------------------------------------- the queue

  class BuildQueue {
    var byKey: map<string, KeyQueue>
    var nextSequence: nat

    ghost var history: History

    /** The numbers stop at their limit; as long as they have not, queues and history agree. */
    ghost predicate Valid()
      reads this
    {
      && |history.submitted| == |history.fates|
      && nextSequence == (if |history.submitted| <= MAX_SEQUENCE then |history.submitted| else MAX_SEQUENCE)
      && (Counting() ==> Tracked(history, byKey))
    }

    /** Fewer than 2^64 submissions. */
    ghost predicate Counting()
      reads this
    {
      |history.submitted| <= MAX_SEQUENCE
    }

    constructor ()
      ensures Valid() && history == History([], [], []) && byKey == map[]
    {
      byKey, nextSequence, history := map[], 0, History([], [], []);
    }

    method Submit(key: string, id: string, kind: Kind, version: string, input: string) returns (outcome: Submission)
      requires Valid()
      modifies this
      ensures Valid()
      ensures outcome.request == Request(id, key, kind, version, input, nextSequence)
      ensures Counting() ==> outcome.request.sequence == |history.submitted| && Advances(old(history), history)
      ensures var q := old(Queue(byKey, key));
              && byKey == old(byKey)[key := Submitted(q, outcome.request)]
              && history == AfterSubmission(old(history), q, outcome.request)
              && (outcome.ReplacedPendingInteractive? <==> kind == Interactive && q.interactive.Some?)
              && (outcome.ReplacedPendingInteractive? ==> outcome.superseded == q.interactive.value)
    {
      hide Tracked; hide SameElsewhere; hide KeyTracked; hide Advances;
      nextSequence := if nextSequence == MAX_SEQUENCE then MAX_SEQUENCE else nextSequence + 1;
      var request := Request(id, key, kind, version, input, nextSequence);
      var q := Queue(byKey, key);
      ghost var after := AfterSubmission(history, q, request);
      if |after.submitted| <= MAX_SEQUENCE {
        TrackedKey(history, byKey, key);
        SubmissionStep(history, key, q, request);
        Retracked(history, after, key, byKey, Submitted(q, request));
      }
      history := after;
      match kind
      case Controller =>
        byKey := byKey[key := q.(controllers := q.controllers + [request])];
        outcome := Queued(request);
      case Interactive =>
        byKey := byKey[key := q.(interactive := Some(request))];
        outcome := if q.interactive.Some? then ReplacedPendingInteractive(request, q.interactive.value)
          else Queued(request);
    }

    /** Grant the next request of an idle key. */
    method StartNext(key: string) returns (granted: Option<Request>)
      requires Valid()
      modifies this
      ensures Valid() && nextSequence == old(nextSequence) && (Counting() ==> Advances(old(history), history))
      ensures var q := old(Queue(byKey, key));
              if key !in old(byKey) || q.running.Some? then
                granted == None && byKey == old(byKey) && history == old(history)
              else
                && granted == Next(q) && byKey == old(byKey)[key := Admit(q)] && history == AfterGrant(old(history), q)
                && (Counting() ==> Fair(old(history), key, granted))
    {
      hide Tracked; hide SameElsewhere; hide KeyTracked; hide Advances; hide Fair;
      AdvancesSelf(history);
      if key !in byKey {
        return None;
      }
      var q := byKey[key];
      if q.running.Some? {
        return None;
      }
      if Counting() {
        TrackedKey(history, byKey, key);
        NextIsFair(history, key, q);
        GrantStep(history, key, q);
        Retracked(history, AfterGrant(history, q), key, byKey, Admit(q));
      }
      var rest := q.interactive;
      if q.controllers != [] {
        granted := Some(q.controllers[0]);
        q := q.(controllers := q.controllers[1..]);
      } else {
        granted := q.interactive;
        q := q.(interactive := None);
      }
      history := AfterGrant(history, byKey[key]);
      byKey := byKey[key := q.(running := granted)];
    }

    /** Complete the running request and grant the next one in the same step. */
    method Finish(key: string, id: string) returns (outcome: Option<Completion>)
      requires Valid()
      modifies this
      ensures Valid() && nextSequence == old(nextSequence) && (Counting() ==> Advances(old(history), history))
      ensures var q := old(Queue(byKey, key));
              if q.running.None? || q.running.value.id != id then
                outcome == None && byKey == old(byKey) && history == old(history)
              else
                var idle := q.(running := None);
                && outcome == Some(Completion(q.running.value, Next(q))) && byKey == old(byKey)[key := Admit(q)]
                && history == AfterGrant(AfterFinish(old(history), q.running.value), idle)
                && (Counting() ==> Fair(AfterFinish(old(history), q.running.value), key, outcome.value.next))
    {
      hide Tracked; hide SameElsewhere; hide KeyTracked; hide Advances; hide Fair; hide AfterFinish;
      AdvancesSelf(history);
      if key !in byKey {
        return None;
      }
      var q := byKey[key];
      if q.running.None? || q.running.value.id != id {
        return None;
      }
      var finished := q.running.value;
      q := q.(running := None);
      ghost var after := AfterFinish(history, finished);
      FinishKeeps(history, finished);
      if Counting() {
        TrackedKey(history, byKey, key);
        FinishStep(history, key, byKey[key]);
        Retracked(history, after, key, byKey, q);
        NextIsFair(after, key, q);
        GrantStep(after, key, q);
        AdvancesOn(history, after, AfterGrant(after, q));
        Retracked(after, AfterGrant(after, q), key, byKey[key := q], Admit(q));
        assert byKey[key := q][key := Admit(q)] == byKey[key := Admit(q)];
      }
      history := AfterGrant(after, q);
      var next;
      if q.controllers != [] {
        next := Some(q.controllers[0]);
        q := q.(controllers := q.controllers[1..]);
      } else {
        next := q.interactive;
        q := q.(interactive := None);
      }
      byKey := byKey[key := q.(running := next)];
      outcome := Some(Completion(finished, next));
    }

    /** Remove work that has not started; running work stays. */
    method RemovePending(key: string, id: string) returns (removed: bool)
      requires Valid()
      modifies this
      ensures Valid() && nextSequence == old(nextSequence) && (Counting() ==> Advances(old(history), history))
      ensures var q := old(Queue(byKey, key));
              && (removed <==> Cancelled(q, id) != [])
              && history == AfterRemoval(old(history), q, id)
              && byKey == (if key in old(byKey) then old(byKey)[key := Remove(q, id)] else old(byKey))
              && (!removed ==> Remove(q, id) == q)
    {
      hide Tracked; hide SameElsewhere; hide KeyTracked; hide Advances; hide AfterRemoval;
      var q := Queue(byKey, key);
      RemovalKeeps(history, q, id);
      AdvancesSelf(history);
      if key !in byKey {
        return false;
      }
      if Counting() {
        TrackedKey(history, byKey, key);
        RemovalStep(history, key, q, id);
        Retracked(history, AfterRemoval(history, q, id), key, byKey, Remove(q, id));
      }
      history := AfterRemoval(history, q, id);
      if q.interactive.Some? && q.interactive.value.id == id {
        byKey := byKey[key := q.(interactive := None)];
        return true;
      }
      var before := |q.controllers|;
      q := q.(controllers := Without(q.controllers, id));
      Counted(byKey[key].controllers, id);
      byKey := byKey[key := q];
      removed := before != |q.controllers|;
      if !removed {
        NothingNamed(old(Queue(byKey, key)).controllers, id);
        NoneNamed(old(Queue(byKey, key)).controllers, id);
      }
    }

    /** Running work cannot publish when newer interactive input waits for the same target. */
    function PublicationAllowed(key: string, id: string): (allowed: bool)
      requires Valid()
      reads this
      ensures Counting() && RunsInteractive(Queue(byKey, key), id) ==>
        (allowed <==> Queue(byKey, key).interactive.None?)
      ensures allowed ==> Queue(byKey, key).running.Some? && Queue(byKey, key).running.value.id == id
    {
      PublicationSound(key, id);
      key in byKey && Publishable(byKey[key], id)
    }

    lemma PublicationSound(key: string, id: string)
      requires Valid()
      ensures Counting() && RunsInteractive(Queue(byKey, key), id) ==>
        (Publishable(Queue(byKey, key), id) <==> Queue(byKey, key).interactive.None?)
    {
      hide Tracked; hide KeyTracked; hide Publishable;
      var q := Queue(byKey, key);
      if Counting() && RunsInteractive(q, id) {
        TrackedKey(history, byKey, key);
        InteractivePublishes(history, key, q, id);
      }
    }
  }

  lemma TrackedKey(h: History, queues: map<string, KeyQueue>, k: string)
    requires Tracked(h, queues)
    ensures KeyTracked(h, k, Queue(queues, k)) && Numbered(h) && |h.submitted| == |h.fates|
  {
    hide KeyTracked;
  }

  lemma FinishKeeps(h: History, r: Request)
    ensures AfterFinish(h, r).submitted == h.submitted && |AfterFinish(h, r).fates| == |h.fates|
  {
  }

  lemma RemovalKeeps(h: History, q: KeyQueue, id: string)
    ensures AfterRemoval(h, q, id).submitted == h.submitted && |AfterRemoval(h, q, id).fates| == |h.fates|
    ensures q == EMPTY ==> AfterRemoval(h, q, id) == h
  {
  }

  lemma {:induction false} Counted(requests: seq<Request>, id: string)
    ensures |Without(requests, id)| + |Named(requests, id)| == |requests|
  {
    if requests == [] {
    } else {
      Counted(requests[..|requests| - 1], id);
    }
  }

  lemma {:induction false} NoneNamed(requests: seq<Request>, id: string)
    requires forall x <- requests :: x.id != id
    ensures Without(requests, id) == requests
  {
    if requests == [] {
    } else {
      var n := |requests| - 1;
      NoneNamed(requests[..n], id);
      assert requests == requests[..n] + [requests[n]];
    }
  }

  lemma NothingNamed(requests: seq<Request>, id: string)
    requires Named(requests, id) == []
    ensures forall x <- requests :: x.id != id
  {
    forall x | x in requests
      ensures x.id != id
    {
      assert x !in Named(requests, id);
    }
  }
}
