/**
 The buffer cache under every interleaving of any number of sessions: coherence
 with the plain disk map, reference counts, exclusion and recycling order.
 */
module CacheRuns {
  import opened Common
  import opened BufferCache

  /**
   `start` is the disk when the cache was initialised, `log` the contents released
   so far, `stamp` the time each buffer last went to the front of the list. The
   three are history: no step reads them.
   */
  datatype State = State(
    bufs: seq<Buf>, lru: seq<nat>, disk: map<Key, Block>, sessions: map<Sid, Phase>,
    start: map<Key, Block>, log: seq<(Key, Block)>, stamp: seq<nat>, clock: nat)

  datatype Event =
    | Get(t: Sid, k: Key)         // bget under the cache lock
    | Lock(t: Sid)                // sema_wait on the buffer returns
    | Fill(t: Sid)                // bread returns
    | Modify(t: Sid, d: Block)    // the session changes the contents
    | MarkDirty(t: Sid)           // bwrite
    | WriteBack(t: Sid)           // bwback
    | Unlock(t: Sid)              // brelse up to sema_signal
    | Put(t: Sid)                 // brelse under the cache lock

  ghost predicate InitState(s: State) {
    && (forall b :: 0 <= b < |s.bufs| ==> s.bufs[b] == Buf(Key(0, 0), false, false, 0, [], 1))
    && |s.lru| == |s.stamp| == |s.bufs|
    && (forall p :: 0 <= p < |s.bufs| ==> s.lru[p] == |s.bufs| - 1 - p && s.stamp[p] == p)
    && s.clock == |s.bufs| && s.sessions == map[] && s.log == [] && s.disk == s.start
  }

  ghost predicate At(s: State, t: Sid) {
    t in s.sessions && s.sessions[t].b < |s.bufs|
  }

  /** The last content released for k, or what the disk started with: what a plain disk map would hold. */
  ghost function LastReleased(start: map<Key, Block>, log: seq<(Key, Block)>, k: Key): Block {
    if log == [] then Read(start, k)
    else if log[|log| - 1].0 == k then log[|log| - 1].1
    else LastReleased(start, log[..|log| - 1], k)
  }

  ghost predicate Enabled(s: State, e: Event) {
    match e
    case Get(t, k) => t !in s.sessions && IsOrder(s.lru, |s.bufs|) && Choose(s.bufs, s.lru, k).Some?
    case Lock(t) => At(s, t) && s.sessions[t].Queued? && s.bufs[s.sessions[t].b].permits > 0
    case Fill(t) => At(s, t) && s.sessions[t].Locked?
    case Modify(t, d) => At(s, t) && s.sessions[t].Holding?
    case MarkDirty(t) => At(s, t) && s.sessions[t].Holding?
    case WriteBack(t) => At(s, t) && s.sessions[t].Holding?
    // the caller's obligation: contents that were changed have been handed to bwrite
    case Unlock(t) =>
      At(s, t) && s.sessions[t].Holding? && (s.sessions[t].touched ==> s.bufs[s.sessions[t].b].dirty)
    case Put(t) => At(s, t) && s.sessions[t].Leaving? && |s.stamp| == |s.bufs|
  }

  ghost function Apply(s: State, e: Event): State
    requires Enabled(s, e)
  {
    match e
    case Get(t, k) =>
      var b := Choose(s.bufs, s.lru, k).value;
      s.(bufs := s.bufs[b := Claimed(s.bufs[b], k)], sessions := s.sessions[t := Queued(b, k)])
    case Lock(t) =>
      var ph := s.sessions[t];
      s.(bufs := s.bufs[ph.b := s.bufs[ph.b].(permits := s.bufs[ph.b].permits - 1)],
         sessions := s.sessions[t := Locked(ph.b, ph.key)])
    case Fill(t) =>
      var ph := s.sessions[t];
      s.(bufs := s.bufs[ph.b := Filled(s.bufs[ph.b], s.disk)],
         sessions := s.sessions[t := Holding(ph.b, ph.key, false)])
    case Modify(t, d) =>
      var ph := s.sessions[t];
      s.(bufs := s.bufs[ph.b := s.bufs[ph.b].(data := d)], sessions := s.sessions[t := ph.(touched := true)])
    case MarkDirty(t) =>
      var b := s.sessions[t].b;
      s.(bufs := s.bufs[b := s.bufs[b].(dirty := true)])
    case WriteBack(t) =>
      var ph := s.sessions[t];
      s.(disk := Synced(s.disk, s.bufs[ph.b]),
         bufs := s.bufs[ph.b := s.bufs[ph.b].(dirty := false)],
         sessions := s.sessions[t := ph.(touched := ph.touched && !s.bufs[ph.b].dirty)])
    case Unlock(t) =>
      var ph := s.sessions[t];
      var c := s.bufs[ph.b];
      s.(disk := Synced(s.disk, c),
         bufs := s.bufs[ph.b := c.(dirty := false, permits := c.permits + 1)],
         sessions := s.sessions[t := Leaving(ph.b, ph.key)],
         log := s.log + [(ph.key, c.data)])
    case Put(t) =>
      var b := s.sessions[t].b;
      var c := s.bufs[b].(refcnt := s.bufs[b].refcnt - 1);
      var s' := s.(bufs := s.bufs[b := c], sessions := s.sessions - {t});
      if c.refcnt == 0 then
        s'.(lru := MoveFront(s.lru, b), stamp := s.stamp[b := s.clock], clock := s.clock + 1)
      else s'
  }

  ghost predicate Legal(s: State, es: seq<Event>)
    decreases |es|
  {
    es == [] || (Enabled(s, es[0]) && Legal(Apply(s, es[0]), es[1..]))
  }

  ghost function Exec(s: State, es: seq<Event>): State
    requires Legal(s, es)
    decreases |es|
  {
    if es == [] then s else Exec(Apply(s, es[0]), es[1..])
  }

  // ------------------------------------------------------------- invariant

  ghost function Users(m: map<Sid, Phase>, b: nat): set<Sid> {
    set t | t in m && m[t].b == b
  }

  ghost function Lockers(m: map<Sid, Phase>, b: nat): set<Sid> {
    set t | t in m && m[t].b == b && (m[t].Locked? || m[t].Holding?)
  }

  /** Unreferenced, never filled, nothing to write back. */
  ghost predicate Fresh(b: Buf) {
    b.refcnt == 0 && !b.valid && !b.dirty
  }

  /** Of two buffers with one key the one further from the head is fresh: a block has one live buffer. */
  ghost predicate OneLive(bufs: seq<Buf>, lru: seq<nat>)
    requires IsOrder(lru, |bufs|)
  {
    forall i, j :: 0 <= i < j < |lru| && bufs[lru[i]].key == bufs[lru[j]].key ==> Fresh(bufs[lru[j]])
  }

  ghost predicate Counts(bufs: seq<Buf>, m: map<Sid, Phase>) {
    && (forall t :: t in m ==> m[t].b < |bufs| && bufs[m[t].b].key == m[t].key)
    && (forall b :: 0 <= b < |bufs| ==> bufs[b].refcnt == |Users(m, b)|)
    && (forall b :: 0 <= b < |bufs| ==> bufs[b].permits + |Lockers(m, b)| == 1)
  }

  ghost predicate Untouched(m: map<Sid, Phase>, b: nat) {
    forall t :: t in m && m[t].Holding? && m[t].b == b ==> !m[t].touched
  }

  ghost predicate Idle(m: map<Sid, Phase>, k: Key) {
    forall t :: t in m && m[t].Holding? ==> m[t].key != k
  }

  ghost predicate Content(s: State) {
    && (forall t :: t in s.sessions && s.sessions[t].Holding? && s.sessions[t].b < |s.bufs| ==>
          s.bufs[s.sessions[t].b].valid)
    && (forall b :: 0 <= b < |s.bufs| && s.bufs[b].dirty ==>
          exists t :: t in s.sessions && s.sessions[t].Holding? && s.sessions[t].b == b)
    && (forall b :: 0 <= b < |s.bufs| && s.bufs[b].valid && !s.bufs[b].dirty && Untouched(s.sessions, b) ==>
          s.bufs[b].data == Read(s.disk, s.bufs[b].key))
    && (forall k :: Idle(s.sessions, k) ==> Read(s.disk, k) == LastReleased(s.start, s.log, k))
  }

  ghost predicate Stamped(s: State)
    requires IsOrder(s.lru, |s.bufs|)
  {
    && |s.stamp| == |s.bufs|
    && (forall b :: 0 <= b < |s.stamp| ==> s.stamp[b] < s.clock)
    && (forall i, j :: 0 <= i < j < |s.lru| ==> s.stamp[s.lru[i]] > s.stamp[s.lru[j]])
  }

  ghost predicate Inv(s: State) {
    && IsOrder(s.lru, |s.bufs|)
    && OneLive(s.bufs, s.lru)
    && Counts(s.bufs, s.sessions)
    && Content(s)
    && Stamped(s)
  }

  lemma InitInv(s: State)
    requires InitState(s)
    ensures Inv(s)
  {
    forall b | 0 <= b < |s.bufs|
      ensures Users(s.sessions, b) == {} && Lockers(s.sessions, b) == {}
    {}
  }

  // -------------------------------------------------- facts about one state

  lemma UserCount(s: State, t: Sid)
    requires Inv(s) && t in s.sessions
    ensures s.bufs[s.sessions[t].b].refcnt >= 1
  {
    assert t in Users(s.sessions, s.sessions[t].b);
  }

  /** At most one session is between `sema_wait` and `sema_signal` of a buffer. */
  lemma OneLocker(s: State, t: Sid, u: Sid)
    requires Inv(s) && t in s.sessions && u in s.sessions && s.sessions[t].b == s.sessions[u].b
    requires (s.sessions[t].Locked? || s.sessions[t].Holding?) && (s.sessions[u].Locked? || s.sessions[u].Holding?)
    ensures t == u
  {
    var l := Lockers(s.sessions, s.sessions[t].b);
    assert {t, u} <= l;
    SubsetSize({t, u}, l);
  }

  ghost function PositionOf(s: State, b: nat): (p: nat)
    requires IsOrder(s.lru, |s.bufs|) && b < |s.bufs|
    ensures p < |s.lru| && s.lru[p] == b
  {
    PermutationCovers(s.lru, |s.bufs|, b);
    var p :| 0 <= p < |s.lru| && s.lru[p] == b;
    p
  }

  /** A buffer sharing its key with a referenced one is fresh. */
  lemma TwinIsFresh(s: State, b: nat, c: nat)
    requires Inv(s) && b < |s.bufs| && c < |s.bufs| && b != c
    requires s.bufs[b].key == s.bufs[c].key && s.bufs[b].refcnt >= 1
    ensures Fresh(s.bufs[c])
  {
    var i, j := PositionOf(s, b), PositionOf(s, c);
    assert i < j || j < i;
  }

  /** While a session is between lock and unlock of a block, no other session holds that block. */
  lemma HolderIsAlone(s: State, t: Sid, u: Sid)
    requires Inv(s) && t in s.sessions && u in s.sessions && t != u
    requires s.sessions[t].Locked? || s.sessions[t].Holding?
    requires s.sessions[u].Holding?
    ensures s.sessions[t].key != s.sessions[u].key
  {
    var b, c := s.sessions[t].b, s.sessions[u].b;
    UserCount(s, t);
    UserCount(s, u);
    if s.sessions[t].key == s.sessions[u].key {
      if b == c {
        OneLocker(s, t, u);
      } else {
        TwinIsFresh(s, b, c);
      }
    }
  }

  // ---------------------------------------------------------- preservation

  ghost function LockWeight(ph: Phase): nat {
    if ph.Locked? || ph.Holding? then 1 else 0
  }

  ghost function UserShare(m: map<Sid, Phase>, t: Sid, b: nat): nat {
    if t in m && m[t].b == b then 1 else 0
  }

  ghost function LockShare(m: map<Sid, Phase>, t: Sid, b: nat): nat {
    if t in m && m[t].b == b then LockWeight(m[t]) else 0
  }

  ghost predicate SameElsewhere(m: map<Sid, Phase>, m': map<Sid, Phase>, t: Sid) {
    forall u :: u != t ==> (u in m <==> u in m') && (u in m ==> m[u] == m'[u])
  }

  /** Only the session that moved changes a buffer's counts. */
  lemma UsersMove(m: map<Sid, Phase>, m': map<Sid, Phase>, t: Sid, b: nat)
    requires SameElsewhere(m, m', t)
    ensures |Users(m', b)| - UserShare(m', t, b) == |Users(m, b)| - UserShare(m, t, b)
  {
    SizesDifferAt(Users(m, b), Users(m', b), t);
  }

  lemma LockersMove(m: map<Sid, Phase>, m': map<Sid, Phase>, t: Sid, b: nat)
    requires SameElsewhere(m, m', t)
    ensures |Lockers(m', b)| - LockShare(m', t, b) == |Lockers(m, b)| - LockShare(m, t, b)
  {
    SizesDifferAt(Lockers(m, b), Lockers(m', b), t);
  }

  lemma GetKeepsOneLive(s: State, t: Sid, k: Key)
    requires Inv(s) && Enabled(s, Get(t, k))
    ensures OneLive(Apply(s, Get(t, k)).bufs, s.lru)
  {
    var bufs' := Apply(s, Get(t, k)).bufs;
    var i := FirstMatch(s.bufs, s.lru, k, 0);
    var b := Choose(s.bufs, s.lru, k).value;
    forall p, q | 0 <= p < q < |s.lru| && bufs'[s.lru[p]].key == bufs'[s.lru[q]].key
      ensures Fresh(bufs'[s.lru[q]])
    {
      if i < |s.lru| {
        assert s.lru[q] == b ==> q == i;
      } else {
        MatchMissesAll(s.bufs, s.lru, k, s.lru[p]);
        MatchMissesAll(s.bufs, s.lru, k, s.lru[q]);
      }
    }
  }

  lemma GetKeepsCounts(s: State, t: Sid, k: Key)
    requires Inv(s) && Enabled(s, Get(t, k))
    ensures var s' := Apply(s, Get(t, k)); Counts(s'.bufs, s'.sessions)
  {
    var s' := Apply(s, Get(t, k));
    assert SameElsewhere(s.sessions, s'.sessions, t);
    forall c | 0 <= c < |s.bufs|
      ensures s'.bufs[c].refcnt == |Users(s'.sessions, c)| && s'.bufs[c].permits + |Lockers(s'.sessions, c)| == 1
    {
      UsersMove(s.sessions, s'.sessions, t, c);
      LockersMove(s.sessions, s'.sessions, t, c);
    }
    forall u | u in s'.sessions
      ensures s'.sessions[u].b < |s'.bufs| && s'.bufs[s'.sessions[u].b].key == s'.sessions[u].key
    {
      if u != t { UserCount(s, u); }
    }
  }

  lemma GetKeepsContent(s: State, t: Sid, k: Key)
    requires Inv(s) && Enabled(s, Get(t, k))
    ensures Content(Apply(s, Get(t, k)))
  {
    var s' := Apply(s, Get(t, k));
    var b := Choose(s.bufs, s.lru, k).value;
    forall u | u in s.sessions
      ensures s.sessions[u].b == b ==> s.bufs[b].key == k
    {
      UserCount(s, u);
    }
    forall c | 0 <= c < |s.bufs| && s'.bufs[c].dirty
      ensures exists u :: u in s'.sessions && s'.sessions[u].Holding? && s'.sessions[u].b == c
    {
      var u :| u in s.sessions && s.sessions[u].Holding? && s.sessions[u].b == c;
      assert s'.sessions[u] == s.sessions[u];
    }
    forall c | 0 <= c < |s.bufs|
      ensures Untouched(s'.sessions, c) ==> Untouched(s.sessions, c)
    {
      if Untouched(s'.sessions, c) {
        forall u | u in s.sessions && s.sessions[u].Holding? && s.sessions[u].b == c
          ensures !s.sessions[u].touched
        {
          assert s'.sessions[u] == s.sessions[u];
        }
      }
    }
    SameIdle(s.sessions, s'.sessions, t);
  }

  /** A session that is not a holder before or after the step changes no block's idleness. */
  lemma SameIdle(m: map<Sid, Phase>, m': map<Sid, Phase>, t: Sid)
    requires t in m ==> !m[t].Holding?
    requires t in m' ==> !m'[t].Holding?
    requires SameElsewhere(m, m', t)
    ensures forall k :: Idle(m', k) ==> Idle(m, k)
  {
    forall k | Idle(m', k)
      ensures Idle(m, k)
    {
      forall u | u in m && m[u].Holding?
        ensures m[u].key != k
      {
        assert u in m' && m'[u] == m[u];
      }
    }
  }

  /** What every step of a session on the buffer it has referenced leaves alone. */
  ghost predicate Local(s: State, s': State, t: Sid) {
    && At(s, t)
    && s'.lru == s.lru && s'.stamp == s.stamp && s'.clock == s.clock && s'.start == s.start
    && |s'.bufs| == |s.bufs|
    && (forall c :: 0 <= c < |s.bufs| && c != s.sessions[t].b ==> s'.bufs[c] == s.bufs[c])
    && var b := s.sessions[t].b;
       && s'.bufs[b].key == s.bufs[b].key && s'.bufs[b].refcnt == s.bufs[b].refcnt
       && t in s'.sessions && s'.sessions == s.sessions[t := s'.sessions[t]]
       && s'.sessions[t].b == b && s'.sessions[t].key == s.sessions[t].key
  }

  lemma LocalKeepsCounts(s: State, s': State, t: Sid)
    requires Counts(s.bufs, s.sessions) && Local(s, s', t)
    requires var b := s.sessions[t].b;
             s'.bufs[b].permits + LockWeight(s'.sessions[t]) == s.bufs[b].permits + LockWeight(s.sessions[t])
    ensures Counts(s'.bufs, s'.sessions)
  {
    assert SameElsewhere(s.sessions, s'.sessions, t);
    forall c | 0 <= c < |s.bufs|
      ensures s'.bufs[c].refcnt == |Users(s'.sessions, c)| && s'.bufs[c].permits + |Lockers(s'.sessions, c)| == 1
    {
      UsersMove(s.sessions, s'.sessions, t, c);
      LockersMove(s.sessions, s'.sessions, t, c);
    }
  }

  lemma LocalKeepsOrder(s: State, s': State, t: Sid)
    requires Inv(s) && Local(s, s', t)
    ensures IsOrder(s'.lru, |s'.bufs|) && OneLive(s'.bufs, s'.lru) && Stamped(s')
  {
    UserCount(s, t);
    forall i, j | 0 <= i < j < |s'.lru| && s'.bufs[s'.lru[i]].key == s'.bufs[s'.lru[j]].key
      ensures Fresh(s'.bufs[s'.lru[j]])
    {
      assert s.bufs[s.lru[i]].key == s.bufs[s.lru[j]].key;
    }
  }

  /** Content after a local step, from what the step does to the one buffer and the one block. */
  lemma LocalKeepsContent(s: State, s': State, t: Sid)
    requires Inv(s) && Local(s, s', t)
    requires var ph, ph' := s.sessions[t], s'.sessions[t];
             var c' := s'.bufs[ph.b];
             // other blocks keep their disk contents and history
             && (forall k :: k != ph.key ==>
                   Read(s'.disk, k) == Read(s.disk, k)
                   && LastReleased(s'.start, s'.log, k) == LastReleased(s.start, s.log, k))
             && (s'.disk != s.disk ==> ph.Holding?)
             && (ph'.Holding? || s.bufs[ph.b].valid ==> c'.valid)
             && (ph.Holding? || ph'.Holding? ==> c'.dirty ==> ph'.Holding?)
             && (ph'.Holding? || ph.Holding? ==>
                   c'.valid && !c'.dirty && (ph'.Holding? ==> !ph'.touched) ==> c'.data == Read(s'.disk, ph.key))
             && (!ph'.Holding? && !ph.Holding? ==> c' == s.bufs[ph.b].(permits := c'.permits))
             && (!ph'.Holding? && ph.Holding? ==> Read(s'.disk, ph.key) == LastReleased(s'.start, s'.log, ph.key))
             && (!ph'.Holding? && !ph.Holding? ==> s'.disk == s.disk && s'.log == s.log)
    ensures Content(s')
  {
    var ph, ph' := s.sessions[t], s'.sessions[t];
    UserCount(s, t);
    forall c | 0 <= c < |s'.bufs| && s'.bufs[c].dirty
      ensures exists u :: u in s'.sessions && s'.sessions[u].Holding? && s'.sessions[u].b == c
    {
      if c != ph.b || !(ph.Holding? || ph'.Holding?) {
        var u :| u in s.sessions && s.sessions[u].Holding? && s.sessions[u].b == c;
        assert s'.sessions[u].Holding? && s'.sessions[u].b == c;
      } else {
        assert s'.sessions[t].Holding?;
      }
    }
    forall c | 0 <= c < |s'.bufs| && s'.bufs[c].valid && !s'.bufs[c].dirty && Untouched(s'.sessions, c)
      ensures s'.bufs[c].data == Read(s'.disk, s'.bufs[c].key)
    {
      if c != ph.b || !(ph.Holding? || ph'.Holding?) {
        UntouchedBefore(s, s', t, c);
        if c != ph.b && s.bufs[c].key == ph.key {
          TwinIsFresh(s, ph.b, c);
        }
      }
    }
    forall k | Idle(s'.sessions, k)
      ensures Read(s'.disk, k) == LastReleased(s'.start, s'.log, k)
    {
      if k != ph.key || !ph.Holding? {
        forall u | u in s.sessions && s.sessions[u].Holding?
          ensures s.sessions[u].key != k
        {
          if u != t { assert s'.sessions[u] == s.sessions[u]; }
        }
      }
    }
  }

  lemma UntouchedBefore(s: State, s': State, t: Sid, c: nat)
    requires Local(s, s', t) && Untouched(s'.sessions, c)
    requires c != s.sessions[t].b || !s.sessions[t].Holding?
    ensures Untouched(s.sessions, c)
  {
    forall u | u in s.sessions && s.sessions[u].Holding? && s.sessions[u].b == c
      ensures !s.sessions[u].touched
    {
      assert s'.sessions[u] == s.sessions[u];
    }
  }

  lemma {:induction false} AppendOther(start: map<Key, Block>, log: seq<(Key, Block)>, k: Key, d: Block)
    ensures LastReleased(start, log + [(k, d)], k) == d
    ensures forall j :: j != k ==> LastReleased(start, log + [(k, d)], j) == LastReleased(start, log, j)
  {
    assert (log + [(k, d)])[..|log|] == log;
  }

  lemma FillKeepsInv(s: State, t: Sid)
    requires Inv(s) && Enabled(s, Fill(t))
    ensures Inv(Apply(s, Fill(t)))
    ensures ReadsLastReleased(s, t)
  {
    var s' := Apply(s, Fill(t));
    assert Local(s, s', t);
    LocalKeepsCounts(s, s', t);
    LocalKeepsOrder(s, s', t);
    var ph := s.sessions[t];
    forall u | u in s.sessions && s.sessions[u].Holding?
      ensures s.sessions[u].b != ph.b && s.sessions[u].key != ph.key
    {
      HolderIsAlone(s, t, u);
    }
    assert Untouched(s.sessions, ph.b);
    assert Idle(s.sessions, ph.key);
    LocalKeepsContent(s, s', t);
  }

  /** What `bread` is about to return for session t is the last content released for its block. */
  ghost predicate ReadsLastReleased(s: State, t: Sid)
    requires Enabled(s, Fill(t))
  {
    var ph := s.sessions[t];
    Apply(s, Fill(t)).bufs[ph.b].data == LastReleased(s.start, s.log, ph.key)
  }

  lemma UnlockKeepsInv(s: State, t: Sid)
    requires Inv(s) && Enabled(s, Unlock(t))
    ensures Inv(Apply(s, Unlock(t)))
  {
    var s' := Apply(s, Unlock(t));
    var ph := s.sessions[t];
    assert Local(s, s', t);
    LocalKeepsCounts(s, s', t);
    LocalKeepsOrder(s, s', t);
    AppendOther(s.start, s.log, ph.key, s.bufs[ph.b].data);
    OwnerUntouched(s, t);
    LocalKeepsContent(s, s', t);
  }

  /** Whether a held buffer is untouched is decided by its one holder. */
  lemma OwnerUntouched(s: State, t: Sid)
    requires Inv(s) && t in s.sessions && s.sessions[t].Holding?
    ensures Untouched(s.sessions, s.sessions[t].b) <==> !s.sessions[t].touched
  {
    forall u | u in s.sessions && s.sessions[u].Holding? && s.sessions[u].b == s.sessions[t].b
      ensures u == t
    {
      OneLocker(s, t, u);
    }
  }

  lemma HolderStepKeepsInv(s: State, e: Event)
    requires Inv(s) && Enabled(s, e) && (e.Modify? || e.MarkDirty? || e.WriteBack?)
    ensures Inv(Apply(s, e))
  {
    var s' := Apply(s, e);
    var t := e.t;
    assert s.sessions == s.sessions[t := s.sessions[t]];
    assert Local(s, s', t);
    LocalKeepsCounts(s, s', t);
    LocalKeepsOrder(s, s', t);
    OwnerUntouched(s, t);
    LocalKeepsContent(s, s', t);
  }

  lemma LockKeepsInv(s: State, t: Sid)
    requires Inv(s) && Enabled(s, Lock(t))
    ensures Inv(Apply(s, Lock(t)))
  {
    var s' := Apply(s, Lock(t));
    assert Local(s, s', t);
    LocalKeepsCounts(s, s', t);
    LocalKeepsOrder(s, s', t);
    LocalKeepsContent(s, s', t);
  }

  lemma PutKeepsCounts(s: State, t: Sid)
    requires Counts(s.bufs, s.sessions) && Enabled(s, Put(t))
    ensures var s' := Apply(s, Put(t)); Counts(s'.bufs, s'.sessions)
  {
    hide Users, Lockers, MoveFront;
    var s' := Apply(s, Put(t));
    assert SameElsewhere(s.sessions, s'.sessions, t);
    forall c | 0 <= c < |s.bufs|
      ensures s'.bufs[c].refcnt == |Users(s'.sessions, c)| && s'.bufs[c].permits + |Lockers(s'.sessions, c)| == 1
    {
      UsersMove(s.sessions, s'.sessions, t, c);
      LockersMove(s.sessions, s'.sessions, t, c);
    }
  }

  /** Position in the old list of the element now at position i, when the one at p went to the front. */
  ghost function Before(p: nat, i: nat): nat {
    if i == 0 then p else if i <= p then i - 1 else i
  }

  lemma MovedFrom(lru: seq<nat>, n: nat, b: nat) returns (p: nat)
    requires IsOrder(lru, n) && b < n
    ensures p < n && lru[p] == b && IsOrder(MoveFront(lru, b), n)
    ensures forall i :: 0 <= i < n ==> MoveFront(lru, b)[i] == lru[Before(p, i)]
  {
    p := MoveFrontIsOrder(lru, n, b);
  }

  lemma MoveKeepsStamps(s: State, b: nat)
    requires IsOrder(s.lru, |s.bufs|) && Stamped(s) && b < |s.bufs|
    ensures var s' := s.(lru := MoveFront(s.lru, b), stamp := s.stamp[b := s.clock], clock := s.clock + 1);
            IsOrder(s'.lru, |s'.bufs|) && Stamped(s')
  {
    var p := MovedFrom(s.lru, |s.bufs|, b);
  }

  lemma MoveKeepsOneLive(bufs: seq<Buf>, lru: seq<nat>, b: nat)
    requires IsOrder(lru, |bufs|) && OneLive(bufs, lru) && b < |bufs| && bufs[b].refcnt >= 1
    ensures IsOrder(MoveFront(lru, b), |bufs|) && OneLive(bufs, MoveFront(lru, b))
  {
    var p := MovedFrom(lru, |bufs|, b);
  }

  lemma PutKeepsOrder(s: State, t: Sid)
    requires IsOrder(s.lru, |s.bufs|) && OneLive(s.bufs, s.lru) && Stamped(s)
    requires Enabled(s, Put(t)) && s.bufs[s.sessions[t].b].refcnt >= 1
    ensures var s' := Apply(s, Put(t));
            IsOrder(s'.lru, |s'.bufs|) && OneLive(s'.bufs, s'.lru) && Stamped(s')
  {
    var s' := Apply(s, Put(t));
    var b := s.sessions[t].b;
    MoveKeepsStamps(s, b);
    MoveKeepsOneLive(s.bufs, s.lru, b);
    DropKeepsOneLive(s.bufs, s'.bufs, s'.lru, b);
  }

  lemma DropKeepsOneLive(bufs: seq<Buf>, bufs': seq<Buf>, lru: seq<nat>, b: nat)
    requires IsOrder(lru, |bufs|) && OneLive(bufs, lru) && b < |bufs| && bufs[b].refcnt >= 1
    requires bufs' == bufs[b := bufs[b].(refcnt := bufs[b].refcnt - 1)]
    ensures OneLive(bufs', lru)
  {
    forall i, j | 0 <= i < j < |lru| && bufs'[lru[i]].key == bufs'[lru[j]].key
      ensures Fresh(bufs'[lru[j]])
    {
      assert bufs[lru[i]].key == bufs[lru[j]].key;
    }
  }

  lemma PutKeepsContent(s: State, t: Sid)
    requires Content(s) && Enabled(s, Put(t))
    ensures Content(Apply(s, Put(t)))
  {
    var s' := Apply(s, Put(t));
    forall c | 0 <= c < |s.bufs| && s'.bufs[c].dirty
      ensures exists u :: u in s'.sessions && s'.sessions[u].Holding? && s'.sessions[u].b == c
    {
      var u :| u in s.sessions && s.sessions[u].Holding? && s.sessions[u].b == c;
      assert s'.sessions[u] == s.sessions[u];
    }
    forall c | 0 <= c < |s.bufs| && Untouched(s'.sessions, c)
      ensures Untouched(s.sessions, c)
    {
      forall u | u in s.sessions && s.sessions[u].Holding? && s.sessions[u].b == c
        ensures !s.sessions[u].touched
      {
        assert s'.sessions[u] == s.sessions[u];
      }
    }
    SameIdle(s.sessions, s'.sessions, t);
  }

  lemma StepKeepsInv(s: State, e: Event)
    requires Inv(s) && Enabled(s, e)
    ensures Inv(Apply(s, e))
  {
    match e
    case Get(t, k) =>
      GetKeepsOneLive(s, t, k);
      GetKeepsCounts(s, t, k);
      GetKeepsContent(s, t, k);
    case Lock(t) => LockKeepsInv(s, t);
    case Fill(t) => FillKeepsInv(s, t);
    case Unlock(t) => UnlockKeepsInv(s, t);
    case Put(t) =>
      UserCount(s, t);
      PutKeepsCounts(s, t);
      PutKeepsOrder(s, t);
      PutKeepsContent(s, t);
    case _ => HolderStepKeepsInv(s, e);
  }

  lemma {:induction false} RunKeepsInv(s: State, es: seq<Event>)
    requires Inv(s) && Legal(s, es)
    ensures Inv(Exec(s, es))
    decreases |es|
  {
    if es != [] {
      StepKeepsInv(s, es[0]);
      RunKeepsInv(Apply(s, es[0]), es[1..]);
    }
  }

  // ---------------------------------------------------------- main theorems

  /** Some run from some initial state leads here. */
  ghost predicate Reachable(s: State) {
    exists s0, es :: InitState(s0) && Legal(s0, es) && s == Exec(s0, es)
  }

  lemma ReachableInv(s: State)
    requires Reachable(s)
    ensures Inv(s)
  {
    var s0, es :| InitState(s0) && Legal(s0, es) && s == Exec(s0, es);
    InitInv(s0);
    RunKeepsInv(s0, es);
  }

  /** In every run, every `bread` returns the last content released for its block. */
  lemma BreadReturnsLastReleased(s: State, t: Sid)
    requires Reachable(s) && Enabled(s, Fill(t))
    ensures ReadsLastReleased(s, t)
  {
    ReachableInv(s);
    FillKeepsInv(s, t);
  }

  /** In every run, a block that nobody holds is on disk as it was last released. */
  lemma {:induction false} ReleasedContentIsOnDisk(s: State, k: Key)
    requires Reachable(s) && Idle(s.sessions, k)
    ensures Read(s.disk, k) == LastReleased(s.start, s.log, k)
  {
    ReachableInv(s);
  }

  /**
   In every run a reference count is the number of open sessions on the buffer, the
   sleeping lock is free exactly when no session is inside it, and an unreferenced
   buffer has nothing to write back.
   */
  lemma ReferencesAreExact(s: State, b: nat)
    requires Reachable(s) && b < |s.bufs|
    ensures s.bufs[b].refcnt == |Users(s.sessions, b)|
    ensures s.bufs[b].permits == 1 <==> Lockers(s.sessions, b) == {}
    ensures s.bufs[b].refcnt == 0 ==> !s.bufs[b].dirty
  {
    ReachableInv(s);
    if s.bufs[b].dirty {
      var t :| t in s.sessions && s.sessions[t].Holding? && s.sessions[t].b == b;
      UserCount(s, t);
    }
  }

  /**
   In every run, of two buffers with one key one is unreferenced, invalid and clean; (0, 0)
   is no exception.
   */
  lemma OneLiveBufferPerBlock(s: State, b: nat, c: nat)
    requires Reachable(s) && b < |s.bufs| && c < |s.bufs| && b != c && s.bufs[b].key == s.bufs[c].key
    ensures Fresh(s.bufs[b]) || Fresh(s.bufs[c])
  {
    ReachableInv(s);
    var i, j := PositionOf(s, b), PositionOf(s, c);
    assert i < j || j < i;
  }

  /** A miss recycles no referenced buffer, and a hit changes only the count. */
  lemma GetLeavesBuffer(s: State, e: Event, t: Sid)
    requires Inv(s) && Enabled(s, e) && e.Get? && At(s, t) && e.t != t
    ensures Unharmed(s, Apply(s, e), t)
  {
    UserCount(s, t);
  }

  /**
   A step of a session on its own buffer harms nobody else's: if it is the same buffer, only
   one of them is inside.
   */
  lemma StepLeavesBuffer(s: State, e: Event, t: Sid)
    requires Inv(s) && Enabled(s, e) && !e.Get? && At(s, t) && e.t != t
    ensures Unharmed(s, Apply(s, e), t)
  {
    if s.sessions[t].Holding? && s.sessions[e.t].b == s.sessions[t].b
       && (s.sessions[e.t].Locked? || s.sessions[e.t].Holding?) {
      OneLocker(s, t, e.t);
    }
  }

  ghost predicate Unharmed(s: State, s': State, t: Sid)
    requires At(s, t)
  {
    var b := s.sessions[t].b;
    && t in s'.sessions && s'.sessions[t] == s.sessions[t] && b < |s'.bufs|
    && s'.bufs[b].key == s.sessions[t].key
    && (s.sessions[t].Holding? ==>
          s'.bufs[b].data == s.bufs[b].data && s'.bufs[b].valid && s'.bufs[b].dirty == s.bufs[b].dirty)
  }

  /**
   A session's buffer keeps its identity, and a holder's buffer its contents, through every
   step of another session.
   */
  lemma OthersLeaveMyBufferAlone(s: State, e: Event, t: Sid)
    requires Reachable(s) && Enabled(s, e) && At(s, t) && e.t != t
    ensures var b, s' := s.sessions[t].b, Apply(s, e);
            && t in s'.sessions && s'.sessions[t] == s.sessions[t] && b < |s'.bufs|
            && s'.bufs[b].key == s.sessions[t].key
            && (s.sessions[t].Holding? ==>
                  s'.bufs[b].data == s.bufs[b].data && s'.bufs[b].valid && s'.bufs[b].dirty == s.bufs[b].dirty)
  {
    ReachableInv(s);
    if e.Get? {
      GetLeavesBuffer(s, e, t);
    } else {
      StepLeavesBuffer(s, e, t);
    }
    hide Apply, Inv;
  }

  /** On a miss the recycled buffer is, of all unreferenced ones, the one released longest ago. */
  lemma {:induction false} VictimIsLeastRecentlyReleased(s: State, k: Key, b: nat)
    requires Reachable(s) && IsOrder(s.lru, |s.bufs|) && |s.stamp| == |s.bufs|
    requires FirstMatch(s.bufs, s.lru, k, 0) == |s.lru|
    requires Choose(s.bufs, s.lru, k).Some? && b < |s.bufs| && s.bufs[b].refcnt == 0
    ensures var v := Choose(s.bufs, s.lru, k).value;
            s.bufs[v].refcnt == 0 && s.stamp[v] <= s.stamp[b]
  {
    ReachableInv(s);
    assert Stamped(s);
    hide Inv, Reachable;
    var p := PositionOf(s, b);
    var j := LastFree(s.bufs, s.lru, |s.lru|);
    assert p <= j;
  }

  /**
   The stamps record the releases: a buffer is stamped by the step that drops its last reference
   and by no other, later than everything stamped before.
   */
  lemma {:induction false} StampedByItsLastRelease(s: State, e: Event, b: nat)
    requires Reachable(s) && Enabled(s, e) && b < |s.bufs| && |s.stamp| == |s.bufs|
    ensures var s' := Apply(s, e);
            && |s'.bufs| == |s'.stamp| == |s.bufs|
            && if s.bufs[b].refcnt > 0 == s'.bufs[b].refcnt
               then forall c :: 0 <= c < |s.bufs| ==> s.stamp[c] < s'.stamp[b] && (c != b ==> s'.stamp[c] == s.stamp[c])
               else s'.stamp[b] == s.stamp[b]
  {
    hide MoveFront, Reachable;
    ReachableInv(s);
    assert IsOrder(s.lru, |s.bufs|) && Stamped(s);
    hide Inv, IsOrder;
    if e.Get? {
      assert Choose(s.bufs, s.lru, e.k).value < |s.bufs|;
    }
  }

  ghost function SomeUser(s: State, b: nat): (t: Sid)
    requires Inv(s) && b < |s.bufs| && s.bufs[b].refcnt != 0
    ensures t in s.sessions && s.sessions[t].b == b
  {
    assert Users(s.sessions, b) != {};
    var t :| t in Users(s.sessions, b);
    t
  }

  lemma {:induction false} UsersOfPrefix(s: State, n: nat) returns (r: set<Sid>)
    requires Inv(s) && n <= |s.bufs| && forall b :: 0 <= b < n ==> s.bufs[b].refcnt != 0
    ensures |r| == n && r <= s.sessions.Keys && forall t :: t in r ==> s.sessions[t].b < n
  {
    r := {};
    if n > 0 {
      var q := UsersOfPrefix(s, n - 1);
      r := q + {SomeUser(s, n - 1)};
    }
  }

  /** `bget` cannot run out of buffers while fewer sessions are open than there are buffers. */
  lemma NoPanicBelowCapacity(s: State, k: Key)
    requires Reachable(s) && IsOrder(s.lru, |s.bufs|) && |s.sessions| < |s.bufs|
    ensures Choose(s.bufs, s.lru, k).Some?
  {
    ReachableInv(s);
    if Choose(s.bufs, s.lru, k) == None {
      forall b | 0 <= b < |s.bufs|
        ensures s.bufs[b].refcnt != 0
      {
        PermutationCovers(s.lru, |s.bufs|, b);
      }
      var r := UsersOfPrefix(s, |s.bufs|);
      SubsetSize(r, s.sessions.Keys);
    }
  }

  /** The session's buffer holds d, marked dirty, and the session holds the buffer. */
  ghost predicate HoldsDirty(s: State, t: Sid, k: Key, d: Block) {
    && At(s, t) && s.sessions[t].Holding? && s.sessions[t].key == k
    && var c := s.bufs[s.sessions[t].b]; c.key == k && c.data == d && c.dirty
  }

  lemma {:induction false} WritingMarks(s: State, t: Sid, d: Block, e: Event)
    requires Inv(s) && At(s, t) && s.sessions[t].Holding?
    ensures Enabled(s, Modify(t, d)) && Enabled(Apply(s, Modify(t, d)), MarkDirty(t))
    ensures var s2 := Apply(Apply(s, Modify(t, d)), MarkDirty(t));
            && HoldsDirty(s2, t, s.sessions[t].key, d) && s2.log == s.log && s2.disk == s.disk
            && (Enabled(s2, e) ==>
                  var es := [Modify(t, d), MarkDirty(t), e];
                  Legal(s, es) && Exec(s, es) == Apply(s2, e))
  {
    var s1 := Apply(s, Modify(t, d));
    var s2 := Apply(s1, MarkDirty(t));
    assert HoldsDirty(s2, t, s.sessions[t].key, d);
    hide Inv, HoldsDirty, Apply, Enabled;
    if Enabled(s2, e) {
      Then(s2, e, Apply(s2, e), []);
      Then(s1, MarkDirty(t), s2, [e]);
      Then(s, Modify(t, d), s1, [MarkDirty(t), e]);
    }
  }

  lemma DirtyIsWritten(s: State, t: Sid, k: Key, d: Block)
    requires HoldsDirty(s, t, k, d)
    ensures Enabled(s, WriteBack(t)) && Enabled(s, Unlock(t))
    ensures var s' := Apply(s, WriteBack(t));
            && s'.disk == s.disk[k := d] && At(s', t) && s'.sessions[t].Holding? && s'.sessions[t].b == s.sessions[t].b
            && s'.bufs[s'.sessions[t].b].data == d && !s'.bufs[s'.sessions[t].b].dirty && Enabled(s', Unlock(t))
    ensures var s' := Apply(s, Unlock(t));
            s'.disk == s.disk[k := d] && At(s', t) && s'.sessions[t].Leaving? && s'.log == s.log + [(k, d)]
  {
  }

  /**
   What a session that holds a buffer writes is on disk once it has been marked dirty and written
   back, or released; releasing also makes it the last content released for its block.
   */
  lemma {:induction false} WriteReachesTheDisk(s: State, t: Sid, d: Block)
    requires Reachable(s) && At(s, t) && s.sessions[t].Holding?
    ensures var es := [Modify(t, d), MarkDirty(t), WriteBack(t)];
            && Legal(s, es)
            && var s' := Exec(s, es);
               && s'.disk == s.disk[s.sessions[t].key := d]
               && At(s', t) && s'.sessions[t].Holding? && s'.bufs[s'.sessions[t].b].data == d
               && !s'.bufs[s'.sessions[t].b].dirty && Enabled(s', Unlock(t))
    ensures var es := [Modify(t, d), MarkDirty(t), Unlock(t)];
            && Legal(s, es)
            && var s' := Exec(s, es);
               && s'.disk == s.disk[s.sessions[t].key := d]
               && At(s', t) && s'.sessions[t].Leaving? && s'.log == s.log + [(s.sessions[t].key, d)]
  {
    var k := s.sessions[t].key;
    hide Inv, HoldsDirty, Apply, Enabled, Reachable, Read, At;
    ReachableInv(s);
    WritingMarks(s, t, d, WriteBack(t));
    WritingMarks(s, t, d, Unlock(t));
    DirtyIsWritten(Apply(Apply(s, Modify(t, d)), MarkDirty(t)), t, k, d);
  }

  lemma LockedIsClean(s: State, t: Sid)
    requires Inv(s) && Enabled(s, Fill(t))
    ensures !s.bufs[s.sessions[t].b].dirty
  {
    var b := s.sessions[t].b;
    if s.bufs[b].dirty {
      var u :| u in s.sessions && s.sessions[u].Holding? && s.sessions[u].b == b;
      OneLocker(s, t, u);
    }
  }

  lemma FillAndRelease(s: State, t: Sid, s1: State)
    requires Enabled(s, Fill(t)) && |s.stamp| == |s.bufs| && !s.bufs[s.sessions[t].b].dirty && s1 == Apply(s, Fill(t))
    ensures Enabled(s1, Unlock(t)) && Enabled(Apply(s1, Unlock(t)), Put(t))
    ensures var s3 := Apply(Apply(s1, Unlock(t)), Put(t));
            && s3.disk == s.disk && s3.sessions == s.sessions - {t}
            && s3.log == s.log + [(s.sessions[t].key, s1.bufs[s.sessions[t].b].data)]
  {
    hide MoveFront;
  }

  /** A session that only reads can release its block at once, which leaves the disk as it was. */
  lemma {:induction false} ReadingLeavesTheDisk(s: State, t: Sid)
    requires Reachable(s) && Enabled(s, Fill(t))
    ensures var es := [Fill(t), Unlock(t), Put(t)];
            && Legal(s, es)
            && var s' := Exec(s, es);
               && s'.disk == s.disk && s'.sessions == s.sessions - {t}
               && s'.log == s.log + [(s.sessions[t].key, LastReleased(s.start, s.log, s.sessions[t].key))]
  {
    ReachableInv(s);
    BreadReturnsLastReleased(s, t);
    LockedIsClean(s, t);
    var s1 := Apply(s, Fill(t));
    FillAndRelease(s, t, s1);
    assert s1.bufs[s.sessions[t].b].data == LastReleased(s.start, s.log, s.sessions[t].key);
    hide Inv, Apply, Enabled, LastReleased, Reachable;
    var s2 := Apply(s1, Unlock(t));
    Then(s2, Put(t), Apply(s2, Put(t)), []);
    Then(s1, Unlock(t), s2, [Put(t)]);
    Then(s, Fill(t), s1, [Unlock(t), Put(t)]);
  }

  lemma {:induction false} Then(s: State, e: Event, s': State, rest: seq<Event>)
    requires Enabled(s, e) && Apply(s, e) == s' && Legal(s', rest)
    ensures Legal(s, [e] + rest) && Exec(s, [e] + rest) == Exec(s', rest)
  {
    assert ([e] + rest)[1..] == rest;
  }
}
