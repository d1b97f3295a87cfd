/** Pre-key ids: generated in order, handed out in batches, safe across rolled-back transactions. */
module PreKeys {
  import opened Common

  type KeyPair = Bytes

  type KeyPairs = map<int, KeyPair>

  /** The two counters of the credentials. */
  datatype Creds = Creds(nextPreKeyId: int, firstUnuploadedPreKeyId: int)

  datatype Generated = Generated(newPreKeys: KeyPairs, lastPreKeyId: int, start: int, count: int)

  /** Keys are generated only for the ids of the range that do not exist yet. */
  function GenerateOrGet(c: Creds, range: int, pair: int -> KeyPair): Generated {
    var available := c.nextPreKeyId - c.firstUnuploadedPreKeyId;
    var remaining := range - available;
    var last := c.nextPreKeyId + remaining - 1;
    Generated(map id | c.nextPreKeyId <= id <= last && remaining > 0 :: pair(id), last, c.firstUnuploadedPreKeyId, range)
  }

  function Max(a: int, b: int): int { if a < b then b else a }

  function Updated(c: Creds, g: Generated): Creds {
    Creds(Max(g.lastPreKeyId + 1, c.nextPreKeyId), Max(c.firstUnuploadedPreKeyId, g.lastPreKeyId + 1))
  }

  /** The stored keys with ids from `start` up to but not including `limit`. */
  function GetPreKeys(stored: KeyPairs, start: int, limit: int): KeyPairs {
    map id | start <= id < limit && id in stored :: stored[id]
  }

  method GenerateOrGetPreKeys(c: Creds, range: int, pair: int -> KeyPair) returns (g: Generated)
    ensures g == GenerateOrGet(c, range, pair)
  {
    var available := c.nextPreKeyId - c.firstUnuploadedPreKeyId;
    var remaining := range - available;
    var last := c.nextPreKeyId + remaining - 1;
    var newPreKeys: KeyPairs := map[];
    if remaining > 0 {
      for id := c.nextPreKeyId to last + 1
        invariant newPreKeys == map i | c.nextPreKeyId <= i < id :: pair(i)
      {
        newPreKeys := newPreKeys[id := pair(id)];
      }
    }
    g := Generated(newPreKeys, last, c.firstUnuploadedPreKeyId, range);
    assert g.newPreKeys == GenerateOrGet(c, range, pair).newPreKeys;
  }

  // ---- Runs -----------------------------------------------------------------------------------------

  datatype Batch = Batch(start: int, count: int)

  predicate InBatch(b: Batch, id: int) { b.start <= id < b.start + b.count }

  datatype State = State(creds: Creds, stored: KeyPairs, handedOut: seq<Batch>)

  /**
   * How the transaction around a request ends: committed; rolled back after the caller had advanced the
   * credentials, with some of the new keys written by a failed commit; or raised before they were advanced.
   */
  datatype Outcome = Commits | RollsBack(written: set<int>) | RaisesEarly

  /** A request for a batch, or the removal of a key that was handed out and has been used. */
  datatype Step = Request(count: int, outcome: Outcome) | Consume(id: int)

  function Next(s: State, step: Step, pair: int -> KeyPair): State {
    match step
    case Request(count, outcome) =>
      var g := GenerateOrGet(s.creds, count, pair);
      var out := s.handedOut + [Batch(g.start, count)];
      (match outcome
       case Commits => State(Updated(s.creds, g), s.stored + g.newPreKeys, out)
       case RollsBack(written) =>
         State(Updated(s.creds, g), s.stored + (map id | id in g.newPreKeys && id in written :: g.newPreKeys[id]), out)
       case RaisesEarly => s)
    case Consume(id) =>
      if exists b :: b in s.handedOut && InBatch(b, id) then s.(stored := s.stored - {id}) else s
  }

  function Run(s: State, steps: seq<Step>, pair: int -> KeyPair): State
    decreases |steps|
  {
    if steps == [] then s else Run(Next(s, steps[0], pair), steps[1..], pair)
  }

  ghost predicate Safe(s: State) {
    && s.creds.firstUnuploadedPreKeyId <= s.creds.nextPreKeyId
    && (forall id :: s.creds.firstUnuploadedPreKeyId <= id < s.creds.nextPreKeyId ==> id in s.stored)
    && (forall i :: 0 <= i < |s.handedOut| ==>
          s.handedOut[i].start + s.handedOut[i].count <= s.creds.firstUnuploadedPreKeyId)
    && (forall i, j :: 0 <= i < j < |s.handedOut| ==> s.handedOut[i].start + s.handedOut[i].count <= s.handedOut[j].start)
  }

  /** What a request answers inside its transaction. */
  function Answer(s: State, count: int, pair: int -> KeyPair): KeyPairs {
    var g := GenerateOrGet(s.creds, count, pair);
    GetPreKeys(s.stored + g.newPreKeys, g.start, g.start + g.count)
  }

  /** Each request answers exactly `count` consecutive ids, starting at the first that was never handed out. */
  lemma AnswerIsComplete(s: State, count: int, pair: int -> KeyPair)
    requires Safe(s)
    ensures forall id :: id in Answer(s, count, pair) <==> InBatch(Batch(s.creds.firstUnuploadedPreKeyId, count), id)
    ensures forall b, id :: b in s.handedOut && InBatch(b, id) ==> id !in Answer(s, count, pair)
    ensures forall id :: id in Answer(s, count, pair) && id in s.stored && id < s.creds.nextPreKeyId ==>
      Answer(s, count, pair)[id] == s.stored[id]
  {
    var first := s.creds.firstUnuploadedPreKeyId;
    forall id | first <= id < first + count
      ensures id in s.stored + GenerateOrGet(s.creds, count, pair).newPreKeys
    {
    }
    forall b, id | b in s.handedOut && InBatch(b, id)
      ensures id < first
    {
      var i :| 0 <= i < |s.handedOut| && s.handedOut[i] == b;
    }
  }

  /**
   * A committed request stores every key it answers, the ones made for it included, leaves all other keys as they
   * were, and moves the counters behind the batch.
   */
  lemma CommitStores(s: State, count: int, pair: int -> KeyPair)
    requires Safe(s)
    ensures var r, a, first := Next(s, Request(count, Commits), pair), Answer(s, count, pair), s.creds.firstUnuploadedPreKeyId;
      && (forall id :: id in a ==> id in r.stored && r.stored[id] == a[id])
      && (forall id :: id in a && id >= s.creds.nextPreKeyId ==> a[id] == pair(id))
      && (forall id :: id in s.stored && !(s.creds.nextPreKeyId <= id < first + count) ==>
            id in r.stored && r.stored[id] == s.stored[id])
      && (forall id :: id in r.stored ==> id in s.stored || id in a)
      && r.creds == Creds(Max(s.creds.nextPreKeyId, first + count), Max(first, first + count))
      && r.handedOut == s.handedOut + [Batch(first, count)]
  {
    AnswerIsComplete(s, count, pair);
  }

  /** A rolled-back request moves the counters all the same, and writes some of its new keys at most. */
  lemma RollbackLeaves(s: State, count: int, written: set<int>, pair: int -> KeyPair)
    requires Safe(s)
    ensures var r, c := Next(s, Request(count, RollsBack(written)), pair), Next(s, Request(count, Commits), pair);
      && r.creds == c.creds && r.handedOut == c.handedOut
      && (forall id :: id in s.stored ==> id in r.stored)
      && (forall id :: id in r.stored ==>
            || (id in s.stored && r.stored[id] == s.stored[id])
            || (id in written && id in c.stored && r.stored[id] == c.stored[id]))
  {
  }

  lemma NextIsSafe(s: State, step: Step, pair: int -> KeyPair)
    requires Safe(s)
    ensures Safe(Next(s, step, pair))
    ensures s.creds.firstUnuploadedPreKeyId <= Next(s, step, pair).creds.firstUnuploadedPreKeyId
  {
    match step {
      case Request(count, outcome) =>
      case Consume(id) =>
        if b :| b in s.handedOut && InBatch(b, id) {
          var i :| 0 <= i < |s.handedOut| && s.handedOut[i] == b;
          assert id < s.creds.firstUnuploadedPreKeyId;
        }
    }
  }

  lemma {:induction false} RunIsSafe(s: State, steps: seq<Step>, pair: int -> KeyPair)
    requires Safe(s)
    ensures Safe(Run(s, steps, pair))
    decreases |steps|
  {
    if steps != [] {
      NextIsSafe(s, steps[0], pair);
      RunIsSafe(Next(s, steps[0], pair), steps[1..], pair);
    }
  }

  /** Over any run no id is handed out twice, rolled-back transactions included. */
  lemma IdsHandedOutOnce(s: State, steps: seq<Step>, pair: int -> KeyPair)
    requires Safe(s)
    ensures var out := Run(s, steps, pair).handedOut;
      forall i, j, id :: 0 <= i < j < |out| && InBatch(out[i], id) ==> !InBatch(out[j], id)
  {
    RunIsSafe(s, steps, pair);
  }

  lemma {:induction false} RunAppend(s: State, a: seq<Step>, b: seq<Step>, pair: int -> KeyPair)
    ensures Run(s, a + b, pair) == Run(Run(s, a, pair), b, pair)
    decreases |a|
  {
    hide Next;
    if a == [] {
      assert a + b == b;
    } else {
      assert (a + b)[1..] == a[1..] + b;
      RunAppend(Next(s, a[0], pair), a[1..], b, pair);
    }
  }

  /** A handed-out key stays stored, and stays the same, until it is consumed. */
  lemma {:induction false} StoredUntilConsumed(s: State, steps: seq<Step>, pair: int -> KeyPair, id: int)
    requires Safe(s) && id in s.stored && id < s.creds.firstUnuploadedPreKeyId && Consume(id) !in steps
    ensures var r := Run(s, steps, pair); id in r.stored && r.stored[id] == s.stored[id]
    decreases |steps|
  {
    if steps != [] {
      assert steps[0] in steps;
      NextIsSafe(s, steps[0], pair);
      StoredUntilConsumed(Next(s, steps[0], pair), steps[1..], pair, id);
    }
  }

  /** Over any run, every key of a committed batch is stored as it was answered until it is consumed. */
  lemma CommittedUntilConsumed(s: State, before: seq<Step>, count: int, after: seq<Step>, pair: int -> KeyPair, id: int)
    requires Safe(s) && id in Answer(Run(s, before, pair), count, pair) && Consume(id) !in after
    ensures var r := Run(s, before + [Request(count, Commits)] + after, pair);
      id in r.stored && r.stored[id] == Answer(Run(s, before, pair), count, pair)[id]
  {
    hide Next, Answer, Safe;
    var here, step := Run(s, before, pair), Request(count, Commits);
    RunIsSafe(s, before, pair);
    AnswerIsComplete(here, count, pair);
    CommitStores(here, count, pair);
    NextIsSafe(here, step, pair);
    StoredUntilConsumed(Next(here, step, pair), after, pair, id);
    RunAppend(s, before + [step], after, pair);
    RunAppend(s, before, [step], pair);
    assert Run(here, [step], pair) == Next(here, step, pair);
  }

  /** The allocator as its callers drive it: one request at a time under the shared transaction key. */
  class PreKeyAllocator {
    var creds: Creds
    var stored: KeyPairs
    ghost var handedOut: seq<Batch>

    ghost function View(): State
      reads this
    {
      State(creds, stored, handedOut)
    }

    constructor (creds: Creds, stored: KeyPairs)
      ensures View() == State(creds, stored, [])
    {
      this.creds, this.stored, handedOut := creds, stored, [];
    }

    method GetNextPreKeys(count: int, pair: int -> KeyPair, outcome: Outcome) returns (preKeys: KeyPairs)
      requires Safe(View())
      modifies this
      ensures View() == Next(old(View()), Request(count, outcome), pair) && Safe(View())
      ensures preKeys == Answer(old(View()), count, pair)
      ensures forall id :: id in preKeys <==> InBatch(Batch(old(creds).firstUnuploadedPreKeyId, count), id)
      ensures outcome.Commits? ==> forall id :: id in preKeys ==> id in stored && stored[id] == preKeys[id]
    {
      hide Safe;
      ghost var before := View();
      CommitStores(before, count, pair);
      AnswerIsComplete(before, count, pair);
      NextIsSafe(before, Request(count, outcome), pair);
      var g := GenerateOrGetPreKeys(creds, count, pair);
      var staged := stored;
      if g.newPreKeys != map[] {
        staged := stored + g.newPreKeys;
      }
      assert staged == stored + g.newPreKeys;
      preKeys := GetPreKeys(staged, g.start, g.start + g.count);
      match outcome {
        case Commits =>
          creds, stored := Updated(creds, g), staged;
          handedOut := handedOut + [Batch(g.start, count)];
        case RollsBack(written) =>
          creds := Updated(creds, g);
          stored := stored + map id | id in g.newPreKeys && id in written :: g.newPreKeys[id];
          handedOut := handedOut + [Batch(g.start, count)];
        case RaisesEarly =>
      }
    }
  }
}
