/**
 The bounded pool of response buffers. The class is the responder as one goroutine sees it; the
 state machine interleaves the steps of any number of requests, channel operations and the resets
 around them being separate steps. Both use the same two channel effects, `Taken` and `Offered`.
 */
module BufferPool {
  import Text

  const RESPONSE_BUFFER_COUNT: nat := 16
  const MAXIMUM_POOLED_RESPONSE_SIZE: nat := 0x4_0000

  /** The channel after a non-blocking receive. */
  function Taken<B>(pool: seq<B>): seq<B> {
    if pool == [] then [] else pool[1..]
  }

  /** The channel after a non-blocking send of a buffer whose capacity was checked first. */
  function Offered<B>(pool: seq<B>, buffer: B, capacity: nat): seq<B> {
    if capacity > MAXIMUM_POOLED_RESPONSE_SIZE || |pool| >= RESPONSE_BUFFER_COUNT then pool else pool + [buffer]
  }

  // ---------------------------------------------------------------- the responder

  class Buffer {
    var content: seq<char>
    var capacity: nat

    constructor ()
      ensures content == [] && capacity == 0
    {
      content, capacity := [], 0;
    }

    method Reset()
      modifies this
      ensures content == [] && capacity == old(capacity)
    {
      content := [];
    }

    /** Appends; the allocator grows the capacity by at least what is needed. */
    method Write(text: seq<char>, slack: nat)
      modifies this
      ensures content == old(content) + text
      ensures capacity == if |content| <= old(capacity) then old(capacity) else |content| + slack
    {
      content := content + text;
      if capacity < |content| {
        capacity := |content| + slack;
      }
    }
  }

  class Responder {
    const cacheControl: string
    var buffers: seq<Buffer>
    ghost var held: set<Buffer>

    ghost predicate Valid()
      reads this, buffers
    {
      && |buffers| <= RESPONSE_BUFFER_COUNT
      && (forall i, j :: 0 <= i < j < |buffers| ==> buffers[i] != buffers[j])
      && (forall i :: 0 <= i < |buffers| ==> buffers[i] !in held)
      && (forall i :: 0 <= i < |buffers| ==> buffers[i].content == [] && buffers[i].capacity <= MAXIMUM_POOLED_RESPONSE_SIZE)
    }

    constructor (cacheControl: string)
      ensures Valid() && buffers == [] && held == {} && this.cacheControl == cacheControl
    {
      this.cacheControl := cacheControl;
      buffers, held := [], {};
    }

    /** A pooled buffer or a new one, in either case empty and held by nobody else. */
    method GetBuffer() returns (buffer: Buffer)
      requires Valid()
      modifies this, buffers
      ensures Valid() && buffers == Taken(old(buffers))
      ensures buffer.content == [] && buffer !in buffers && buffer !in old(held) && held == old(held) + {buffer}
      ensures if old(buffers) == [] then fresh(buffer) else buffer == old(buffers)[0]
      ensures forall b :: b in old(held) ==> b.content == old(b.content) && b.capacity == old(b.capacity)
    {
      if |buffers| > 0 {
        buffer := buffers[0];
        buffers := buffers[1..];
        buffer.Reset();
      } else {
        buffer := new Buffer();
      }
      held := held + {buffer};
    }

    /** Oversized buffers and a full pool drop the buffer; otherwise it is pooled, emptied. */
    method PutBuffer(buffer: Buffer)
      requires Valid() && buffer in held
      modifies this, buffer
      ensures Valid() && buffers == Offered(old(buffers), buffer, old(buffer.capacity)) && held == old(held) - {buffer}
      ensures buffer.capacity == old(buffer.capacity)
    {
      held := held - {buffer};
      if buffer.capacity > MAXIMUM_POOLED_RESPONSE_SIZE {
        return;
      }
      buffer.Reset();
      if |buffers| < RESPONSE_BUFFER_COUNT {
        buffers := buffers + [buffer];
      }
    }

    /** writeJSON for a value already encoded as `document`. */
    method WriteJSON(headers: map<string, string>, status: int, document: string, slack: nat)
      returns (sent: map<string, string>, body: string, ghost used: Buffer)
      requires Valid()
      modifies this, buffers
      ensures Valid() && held == old(held)
      ensures if old(buffers) == [] then fresh(used) else used == old(buffers)[0]
      ensures buffers == Offered(Taken(old(buffers)), used, used.capacity)
      ensures body == document && "Content-Length" in sent && sent["Content-Length"] == Text.FormatInt(|document|)
      ensures "Content-Type" in sent &&
        sent["Content-Type"] == if "Content-Type" in headers && headers["Content-Type"] != "" then headers["Content-Type"] else "application/json"
      ensures 200 <= status < 300 && cacheControl != "" ==> "Cache-Control" in sent && sent["Cache-Control"] == cacheControl
      ensures forall h :: h != "Content-Length" && h != "Content-Type" && (h != "Cache-Control" || !(200 <= status < 300) || cacheControl == "") ==>
        (h in sent <==> h in headers) && (h in sent ==> sent[h] == headers[h])
    {
      var buffer := GetBuffer();
      buffer.Write(document, slack);
      sent := headers;
      if "Content-Type" !in sent || sent["Content-Type"] == "" {
        sent := sent["Content-Type" := "application/json"];
      }
      if 200 <= status < 300 && cacheControl != "" {
        sent := sent["Cache-Control" := cacheControl];
      }
      sent := sent["Content-Length" := Text.FormatInt(|buffer.content|)];
      body := buffer.content;
      PutBuffer(buffer);
      used := buffer;
    }
  }

  // ---------------------------------------------------------------- concurrent requests

  /** A buffer's length and capacity. */
  datatype Extent = Extent(length: nat, capacity: nat)

  /** Where a request is with the buffer it holds. */
  datatype Holder =
    | Resetting(id: nat)   // received from the channel, Reset() still to come
    | Using(id: nat)       // between getBuffer and putBuffer
    | Offering(id: nat)    // capacity checked and reset, the send still to come

  datatype Pool = Pool(pooled: seq<nat>, extents: map<nat, Extent>, holders: map<nat, Holder>, next: nat)

  const EMPTY_POOL := Pool([], map[], map[], 0)

  /** Each select has two branches: the channel operation, when it can go ahead, and the default. */
  datatype Action =
    | Receive(request: nat)   // buffer := <-r.buffers
    | Allocate(request: nat)  // default: a new buffer
    | Reset(request: nat)
    | Encode(request: nat, extent: Extent)
    | Put(request: nat)
    | Send(request: nat)      // r.buffers <- buffer
    | Drop(request: nat)      // default: the buffer is left to the collector
    | Abandon(request: nat)   // a panic unwinds the request before it returns its buffer

  predicate Enabled(p: Pool, a: Action) {
    match a
    case Receive(r) => r !in p.holders && p.pooled != []
    case Allocate(r) => r !in p.holders && p.pooled == []
    case Reset(r) => r in p.holders && p.holders[r].Resetting?
    case Encode(r, extent) =>
      && r in p.holders && p.holders[r].Using? && p.holders[r].id in p.extents
      && p.extents[p.holders[r].id].length <= extent.length <= extent.capacity
      && p.extents[p.holders[r].id].capacity <= extent.capacity
    case Put(r) => r in p.holders && p.holders[r].Using? && p.holders[r].id in p.extents
    case Send(r) => r in p.holders && p.holders[r].Offering? && |p.pooled| < RESPONSE_BUFFER_COUNT
    case Drop(r) => r in p.holders && p.holders[r].Offering? && |p.pooled| >= RESPONSE_BUFFER_COUNT
    case Abandon(r) => r in p.holders && p.holders[r].Using?
  }

  function Emptied(extents: map<nat, Extent>, id: nat): map<nat, Extent> {
    if id in extents then extents[id := extents[id].(length := 0)] else extents
  }

  function Apply(p: Pool, a: Action): Pool
    requires Enabled(p, a)
  {
    match a
    case Receive(r) => p.(pooled := Taken(p.pooled), holders := p.holders[r := Resetting(p.pooled[0])])
    case Allocate(r) =>
      p.(extents := p.extents[p.next := Extent(0, 0)], holders := p.holders[r := Using(p.next)], next := p.next + 1)
    case Reset(r) =>
      p.(extents := Emptied(p.extents, p.holders[r].id), holders := p.holders[r := Using(p.holders[r].id)])
    case Encode(r, extent) => p.(extents := p.extents[p.holders[r].id := extent])
    case Put(r) =>
      if p.extents[p.holders[r].id].capacity > MAXIMUM_POOLED_RESPONSE_SIZE then p.(holders := p.holders - {r})
      else p.(extents := Emptied(p.extents, p.holders[r].id), holders := p.holders[r := Offering(p.holders[r].id)])
    case Send(r) => p.(pooled := Offered(p.pooled, p.holders[r].id, 0), holders := p.holders - {r})
    case Drop(r) => p.(holders := p.holders - {r})
    case Abandon(r) => p.(holders := p.holders - {r})
  }

  ghost predicate Reaches(p: Pool, schedule: seq<Action>, q: Pool)
    decreases |schedule|
  {
    if schedule == [] then p == q
    else Enabled(p, schedule[0]) && Reaches(Apply(p, schedule[0]), schedule[1..], q)
  }

  /** Nobody shares a buffer: two requests hold different ones, and a held one is not pooled. */
  ghost predicate Exclusive(p: Pool) {
    && (forall r, s :: r in p.holders && s in p.holders && r != s ==> p.holders[r].id != p.holders[s].id)
    && (forall r, i :: r in p.holders && 0 <= i < |p.pooled| ==> p.holders[r].id != p.pooled[i])
    && (forall i, j :: 0 <= i < j < |p.pooled| ==> p.pooled[i] != p.pooled[j])
  }

  ghost predicate Known(p: Pool) {
    && (forall r :: r in p.holders ==> p.holders[r].id in p.extents)
    && (forall i :: 0 <= i < |p.pooled| ==> p.pooled[i] in p.extents)
    && (forall id :: id in p.extents ==> id < p.next)
  }

  /** Empty and small enough to pool. */
  predicate Poolable(p: Pool, id: nat) {
    id in p.extents && p.extents[id].length == 0 && p.extents[id].capacity <= MAXIMUM_POOLED_RESPONSE_SIZE
  }

  ghost predicate Bounded(p: Pool) {
    && |p.pooled| <= RESPONSE_BUFFER_COUNT
    && (forall i :: 0 <= i < |p.pooled| ==> Poolable(p, p.pooled[i]))
    && (forall r :: r in p.holders && p.holders[r].Offering? ==> Poolable(p, p.holders[r].id))
  }

  lemma StepKeepsExclusive(p: Pool, a: Action)
    requires Exclusive(p) && Known(p) && Enabled(p, a)
    ensures Exclusive(Apply(p, a)) && Known(Apply(p, a))
  {
    StepKeepsKnown(p, a);
    hide Emptied;
  }

  lemma StepKeepsKnown(p: Pool, a: Action)
    requires Exclusive(p) && Known(p) && Enabled(p, a)
    ensures Known(Apply(p, a))
  {
  }

  /** A step disturbs no poolable buffer other than the one its own request is using. */
  lemma StepKeepsPoolable(p: Pool, a: Action, id: nat)
    requires Exclusive(p) && Known(p) && Enabled(p, a) && Poolable(p, id)
    requires a.request in p.holders && p.holders[a.request].Using? ==> p.holders[a.request].id != id
    ensures Poolable(Apply(p, a), id)
  {
  }

  lemma StepKeepsBounded(p: Pool, a: Action)
    requires Exclusive(p) && Known(p) && Bounded(p) && Enabled(p, a)
    ensures Bounded(Apply(p, a))
  {
    var q := Apply(p, a);
    forall i | 0 <= i < |q.pooled| ensures Poolable(q, q.pooled[i]) { StepKeepsPoolable(p, a, q.pooled[i]); }
    forall r | r in q.holders && q.holders[r].Offering? ensures Poolable(q, q.holders[r].id) {
      if r != a.request { StepKeepsPoolable(p, a, q.holders[r].id); }
    }
  }

  /** Under any interleaving the pool stays exclusive and bounded. */
  lemma {:induction false} RunKeepsPool(p: Pool, schedule: seq<Action>, q: Pool)
    requires Exclusive(p) && Known(p) && Bounded(p) && Reaches(p, schedule, q)
    ensures Exclusive(q) && Known(q) && Bounded(q)
    decreases |schedule|
  {
    if schedule != [] {
      StepKeepsExclusive(p, schedule[0]);
      StepKeepsBounded(p, schedule[0]);
      RunKeepsPool(Apply(p, schedule[0]), schedule[1..], q);
    }
  }

  function Retained(p: Pool, ids: seq<nat>): nat {
    if ids == [] then 0 else (if ids[0] in p.extents then p.extents[ids[0]].capacity else 0) + Retained(p, ids[1..])
  }

  lemma {:induction false} RetainedBound(p: Pool, ids: seq<nat>)
    requires forall i :: 0 <= i < |ids| && ids[i] in p.extents ==> p.extents[ids[i]].capacity <= MAXIMUM_POOLED_RESPONSE_SIZE
    ensures Retained(p, ids) <= |ids| * MAXIMUM_POOLED_RESPONSE_SIZE
  {
    if ids != [] {
      assert forall i :: 0 <= i < |ids[1..]| ==> ids[1..][i] == ids[i + 1];
      RetainedBound(p, ids[1..]);
    }
  }

  /** The pool never retains more than the documented 4 MiB. */
  lemma RetainsAtMostFourMiB(schedule: seq<Action>, p: Pool)
    requires Reaches(EMPTY_POOL, schedule, p)
    ensures Retained(p, p.pooled) <= 4 * 1024 * 1024
  {
    RunKeepsPool(EMPTY_POOL, schedule, p);
    RetainedBound(p, p.pooled);
  }

  /**
   Under any interleaving: a request that obtains its buffer obtains an empty one that no other
   request holds and that is no longer pooled, and what another request does next cannot change it.
   */
  lemma HandedOutEmptyAndPrivate(schedule: seq<Action>, p: Pool, a: Action)
    requires Reaches(EMPTY_POOL, schedule, p) && Enabled(p, a)
    requires a.Reset? || a.Allocate?
    ensures var q := Apply(p, a); var id := q.holders[a.request].id;
      && id in q.extents && q.extents[id].length == 0 && id !in q.pooled
      && (forall s :: s in q.holders && s != a.request ==> q.holders[s].id != id)
      && (forall b :: Enabled(q, b) && b.request != a.request ==> id in Apply(q, b).extents && Apply(q, b).extents[id] == q.extents[id])
  {
    RunKeepsPool(EMPTY_POOL, schedule, p);
    StepKeepsExclusive(p, a);
    var q := Apply(p, a);
    var id := q.holders[a.request].id;
    forall b | Enabled(q, b) && b.request != a.request ensures id in Apply(q, b).extents && Apply(q, b).extents[id] == q.extents[id] {
      OthersLeaveAlone(q, b, a.request);
    }
  }

  lemma OthersLeaveAlone(q: Pool, b: Action, r: nat)
    requires Exclusive(q) && Known(q) && r in q.holders && Enabled(q, b) && b.request != r
    ensures q.holders[r].id in Apply(q, b).extents && Apply(q, b).extents[q.holders[r].id] == q.extents[q.holders[r].id]
  {
  }

  /**
   No request waits for another. In every reachable state a request that wants a buffer, or holds
   one, has a step of its own: where its channel operation cannot go ahead, which for a buffer to
   give back means exactly 16 pooled ones, the default branch can, and never both.
   */
  lemma NeverBlocks(schedule: seq<Action>, p: Pool, r: nat)
    requires Reaches(EMPTY_POOL, schedule, p)
    ensures if r !in p.holders then Enabled(p, Receive(r)) <==> !Enabled(p, Allocate(r))
      else match p.holders[r]
        case Resetting(_) => Enabled(p, Reset(r))
        case Using(_) => Enabled(p, Put(r)) && Enabled(p, Abandon(r))
        case Offering(_) =>
          && (Enabled(p, Send(r)) <==> !Enabled(p, Drop(r)))
          && (Enabled(p, Drop(r)) <==> |p.pooled| == RESPONSE_BUFFER_COUNT)
  {
    RunKeepsPool(EMPTY_POOL, schedule, p);
  }

  /** Undisturbed, taking a buffer has the effect of getBuffer: the channel loses its head, and the buffer is empty. */
  lemma TakingAlone(p: Pool, r: nat)
    requires Known(p) && r !in p.holders
    ensures p.pooled == [] ==> Enabled(p, Allocate(r))
    ensures p.pooled != [] ==> Enabled(p, Receive(r)) && Enabled(Apply(p, Receive(r)), Reset(r))
    ensures var q := if p.pooled == [] then Apply(p, Allocate(r)) else Apply(Apply(p, Receive(r)), Reset(r));
      && q.pooled == Taken(p.pooled) && r in q.holders && q.holders[r].Using?
      && q.holders[r].id == (if p.pooled == [] then p.next else p.pooled[0])
      && q.extents[q.holders[r].id].length == 0
  {
  }

  /** Undisturbed, giving a buffer back has the effect of putBuffer, whichever branch its select takes. */
  lemma GivingBackAlone(p: Pool, r: nat)
    requires Known(p) && r in p.holders && p.holders[r].Using?
    ensures var id := p.holders[r].id; var capacity := p.extents[id].capacity;
      && Enabled(p, Put(r))
      && var put := Apply(p, Put(r));
      && (capacity > MAXIMUM_POOLED_RESPONSE_SIZE ==> put.pooled == Offered(p.pooled, id, capacity) && r !in put.holders)
      && (capacity <= MAXIMUM_POOLED_RESPONSE_SIZE ==>
          (Enabled(put, Send(r)) || Enabled(put, Drop(r)))
          && var end := if Enabled(put, Send(r)) then Apply(put, Send(r)) else Apply(put, Drop(r));
          end.pooled == Offered(p.pooled, id, capacity) && r !in end.holders)
  {
  }
}
