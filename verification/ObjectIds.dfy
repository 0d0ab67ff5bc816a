/** The object ID allocator: an atomic counter that wraps around, skipping zero. */
module ObjectIds {
  import opened Base

  const MODULUS := 0x1_0000_0000

  /** The first ID handed out: 0 is null and 1 is the display. */
  const FIRST := 2

  /** The last ID that the wire protocol gives to clients. */
  const LAST_CLIENT_ID := 0xFEFF_FFFF

  /** The ID that an allocation starting at this counter value returns: zero is skipped. */
  function IdAt(counter: u32): ObjectId
  {
    if counter == 0 then 1 else counter
  }

  class Allocator {
    var nextObjectId: u32

    constructor ()
      ensures nextObjectId == FIRST
    {
      nextObjectId := FIRST;
    }

    /** One atomic `fetch_add(1)`. */
    method FetchAdd() returns (fetched: u32)
      modifies this
      ensures fetched == old(nextObjectId) && nextObjectId == (fetched + 1) % MODULUS
    {
      fetched := nextObjectId;
      nextObjectId := (nextObjectId + 1) % MODULUS;
    }

    /** Fetches again while the fetched value is zero. */
    method GetAndIncrementNextObjectId() returns (id: ObjectId)
      modifies this
      ensures id == IdAt(old(nextObjectId))
      ensures nextObjectId == (id + 1) % MODULUS
    {
      var newVal := FetchAdd();
      while newVal == 0
        invariant newVal != 0 ==> newVal == IdAt(old(nextObjectId))
        invariant newVal == 0 ==> old(nextObjectId) == 0
        invariant nextObjectId == (newVal + 1) % MODULUS
        decreases if newVal == 0 then 1 else 0
      {
        newVal := FetchAdd();
      }
      id := newVal;
    }
  }

  // ---------- any interleaving ----------

  type TaskId = nat

  /** Tasks inside the allocation loop, and the IDs returned so far in the order of their fetches. */
  datatype State = State(counter: u32, looping: set<TaskId>, returned: seq<ObjectId>)

  const INITIAL := State(FIRST, {}, [])

  datatype Action = Enter(id: TaskId) | Fetch(id: TaskId)

  predicate Enabled(s: State, a: Action)
  {
    match a
    case Enter(id) => id !in s.looping
    case Fetch(id) => id in s.looping
  }

  function Apply(s: State, a: Action): State
    requires Enabled(s, a)
  {
    match a
    case Enter(id) => s.(looping := s.looping + {id})
    case Fetch(id) =>
      var counted := s.(counter := (s.counter + 1) % MODULUS);
      if s.counter == 0 then counted
      else counted.(looping := s.looping - {id}, returned := s.returned + [s.counter])
  }

  predicate IsRun(s: State, actions: seq<Action>)
    decreases |actions|
  {
    actions == [] || (Enabled(s, actions[0]) && IsRun(Apply(s, actions[0]), actions[1..]))
  }

  function After(s: State, actions: seq<Action>): State
    requires IsRun(s, actions)
    decreases |actions|
  {
    if actions == [] then s else After(Apply(s, actions[0]), actions[1..])
  }

  /** The ID number `n`, counted from zero: the non-zero 32-bit values in turn, starting at 2. */
  function NthId(n: nat): (id: ObjectId)
  {
    1 + (n + 1) % (MODULUS - 1)
  }

  /** The counter stands where the next ID will be fetched, or at the zero just before it. */
  predicate Inv(s: State)
  {
    && (forall i :: 0 <= i < |s.returned| ==> s.returned[i] == NthId(i))
    && (s.counter == NthId(|s.returned|) || (s.counter == 0 && NthId(|s.returned|) == 1))
  }

  lemma NthIdNext(n: nat)
    ensures NthId(n + 1) == if NthId(n) == MODULUS - 1 then 1 else NthId(n) + 1
  {
  }

  lemma {:induction false} RunKeepsInv(s: State, actions: seq<Action>)
    requires Inv(s) && IsRun(s, actions)
    ensures Inv(After(s, actions))
    decreases |actions|
  {
    if actions != [] {
      NthIdNext(|s.returned|);
      RunKeepsInv(Apply(s, actions[0]), actions[1..]);
    }
  }

  /** Whatever the interleaving, the IDs returned are the fixed sequence 2, 3, ..., 0xFFFFFFFF, 1, 2, ...
      in the order of the fetches: never zero, also across wrap-around. */
  lemma ReturnedIds(actions: seq<Action>)
    requires IsRun(INITIAL, actions)
    ensures var ids := After(INITIAL, actions).returned;
            forall i :: 0 <= i < |ids| ==> ids[i] == NthId(i)
  {
    assert NthId(0) == FIRST;
    RunKeepsInv(INITIAL, actions);
  }

  function Enters(actions: seq<Action>): nat
  {
    if actions == [] then 0 else (if actions[0].Enter? then 1 else 0) + Enters(actions[1..])
  }

  function Fetches(actions: seq<Action>): nat
  {
    if actions == [] then 0 else (if actions[0].Fetch? then 1 else 0) + Fetches(actions[1..])
  }

  /** After so many calls and fetches: what the counter is, and how many IDs have been returned. */
  predicate Counted(s: State, enters: nat, fetches: nat)
  {
    && s.counter == (2 + fetches) % MODULUS
    && |s.returned| == fetches - (fetches + 1) / MODULUS
    && |s.looping| + |s.returned| == enters
  }

  lemma NextCount(n: nat)
    ensures (2 + n + 1) % MODULUS == ((2 + n) % MODULUS + 1) % MODULUS
    ensures (n + 2) / MODULUS == (n + 1) / MODULUS + if (2 + n) % MODULUS == 0 then 1 else 0
  {
  }

  lemma StepCounted(s: State, a: Action, enters: nat, fetches: nat)
    requires Counted(s, enters, fetches) && Enabled(s, a)
    ensures a.Enter? ==> Counted(Apply(s, a), enters + 1, fetches)
    ensures a.Fetch? ==> Counted(Apply(s, a), enters, fetches + 1)
  {
    if a.Fetch? {
      NextCount(fetches);
      assert s.looping == s.looping - {a.id} + {a.id};
    }
  }

  lemma {:induction false} RunCounted(s: State, actions: seq<Action>, enters: nat, fetches: nat)
    requires Counted(s, enters, fetches) && IsRun(s, actions)
    ensures Counted(After(s, actions), enters + Enters(actions), fetches + Fetches(actions))
    decreases |actions|
  {
    if actions != [] {
      var a, next := actions[0], Apply(s, actions[0]);
      StepCounted(s, a, enters, fetches);
      hide Apply, Counted;
      if a.Enter? {
        RunCounted(next, actions[1..], enters + 1, fetches);
      } else {
        RunCounted(next, actions[1..], enters, fetches + 1);
      }
    }
  }

  /** Whatever the interleaving, every fetch takes one value of the counter, all but the zeros are returned, and every
      call has returned one ID or is still in its loop. */
  lemma CallsCounted(actions: seq<Action>)
    requires IsRun(INITIAL, actions)
    ensures var s, n := After(INITIAL, actions), Fetches(actions);
            && s.counter == (2 + n) % 0x1_0000_0000
            && |s.returned| == n - (n + 1) / 0x1_0000_0000
            && |s.looping| + |s.returned| == Enters(actions)
  {
    RunCounted(INITIAL, actions, 0, 0);
  }

  /** The first 2^32 - 2 IDs are pairwise distinct and none is the display's; the very next one is. */
  lemma FirstIdsDistinct(actions: seq<Action>, i: nat, j: nat)
    requires IsRun(INITIAL, actions) && i < j < |After(INITIAL, actions).returned|
    ensures var ids := After(INITIAL, actions).returned;
            && (j < MODULUS - 2 ==> ids[i] != ids[j] && ids[i] != DISPLAY && ids[j] != DISPLAY)
            && (j == MODULUS - 2 ==> ids[j] == DISPLAY)
  {
    ReturnedIds(actions);
    SmallIds(i);
    SmallIds(j);
  }

  lemma SmallIds(n: nat)
    ensures n < MODULUS - 2 ==> NthId(n) == n + FIRST
    ensures n == MODULUS - 2 ==> NthId(n) == DISPLAY
  {
  }

  /** Exactly the first 0xFEFFFFFE IDs of the first round are in the client's range. */
  lemma ClientRange(actions: seq<Action>, i: nat)
    requires IsRun(INITIAL, actions) && i < |After(INITIAL, actions).returned| && i < MODULUS - 2
    ensures After(INITIAL, actions).returned[i] <= LAST_CLIENT_ID <==> i < 0xFEFF_FFFE
  {
    ReturnedIds(actions);
    SmallIds(i);
  }

  /** IDs repeat with a period of 2^32 - 1: the display's own ID comes up once in every round. */
  lemma IdsRepeat(i: nat, j: nat)
    ensures NthId(i) == NthId(j) <==> (j - i) % (MODULUS - 1) == 0
  {
    var m := MODULUS - 1;
    var a, b := (i + 1) / m, (j + 1) / m;
    assert i + 1 == a * m + (i + 1) % m && j + 1 == b * m + (j + 1) % m;
    if NthId(i) == NthId(j) {
      assert j - i == (b - a) * m;
    } else {
      var d := (j + 1) % m - (i + 1) % m;
      assert j - i == (b - a) * m + d && -m < d < m && d != 0;
    }
  }
}
