/**
 * The session registry (`Multiplexer`): a map from session id to session,
 * the ids in insertion order, and the id of the active session.
 *
 * Sessions are opaque values. What the operating system would decide is a
 * parameter: whether `Start` succeeds (`started`), whether `Close` succeeds
 * (`closed`), and which sessions `IsAlive` reports alive (`alive`).
 * Locking is left out: each method is one atomic step.
 */
module Mux {

  import opened Wrappers
  import Cyclic

  /** The registry's error values (`data.ErrSessionNotFound`, the duplicate-id error, an OS error). */
  datatype Error = SessionNotFound | SessionExists(id: string) | ProcessError

  /** A shell session as the registry sees it: its id, display name and shell. */
  datatype Session = Session(id: string, name: string, shell: string)

  /** `data.NewTerminalSession`: a session named "shell". */
  function NewSession(id: string, shell: string): Session
  {
    Session(id, "shell", shell)
  }

  predicate NoDups(s: seq<string>)
  {
    forall i, j :: 0 <= i < j < |s| ==> s[i] != s[j]
  }

  /** Drops the first occurrence of `id`, as the splice-out loops do. */
  function RemoveFirst(s: seq<string>, id: string): (r: seq<string>)
    ensures |r| == if id in s then |s| - 1 else |s|
    ensures forall x :: x in r ==> x in s
    ensures forall x :: x in s && x != id ==> x in r
    ensures NoDups(s) ==> NoDups(r) && id !in r
  {
    if s == [] then []
    else if s[0] == id then s[1..]
    else
      var rest := RemoveFirst(s[1..], id);
      NoDupsCons(s[0], s[1..], rest);
      [s[0]] + rest
  }

  /** Putting in front an element that the rest does not hold keeps a list duplicate-free. */
  lemma NoDupsCons(x: string, t: seq<string>, r: seq<string>)
    requires forall y :: y in r ==> y in t
    ensures NoDups([x] + t) && NoDups(r) ==> NoDups([x] + r)
  {
    if NoDups([x] + t) && NoDups(r) {
      assert x !in t by {
        forall k | 0 <= k < |t| ensures t[k] != x {
          assert ([x] + t)[0] == x && ([x] + t)[k + 1] == t[k];
        }
      }
      forall i, j | 0 <= i < j < |[x] + r| ensures ([x] + r)[i] != ([x] + r)[j] {
        if i > 0 {
          assert ([x] + r)[i] == r[i - 1] && ([x] + r)[j] == r[j - 1];
        } else {
          assert ([x] + r)[j] == r[j - 1] && r[j - 1] in t;
        }
      }
    }
  }

  /** The elements of `s` not in `gone`, in their original order. */
  function Without(s: seq<string>, gone: set<string>): (r: seq<string>)
    ensures forall x :: x in r <==> x in s && x !in gone
    ensures NoDups(s) ==> NoDups(r)
  {
    if s == [] then []
    else
      var rest := Without(s[1..], gone);
      NoDupsCons(s[0], s[1..], rest);
      assert s == [s[0]] + s[1..];
      (if s[0] in gone then [] else [s[0]]) + rest
  }

  /** The index of the first occurrence of x. */
  function FirstIndex(s: seq<string>, x: string): (i: nat)
    requires x in s
    ensures i < |s| && s[i] == x
    ensures forall k :: 0 <= k < i ==> s[k] != x
  {
    if s[0] == x then 0 else 1 + FirstIndex(s[1..], x)
  }

  /** The id `NextSession` makes active: the one after `active`, wrapping; `order[0]` if `active` is not listed. */
  function NextActive(order: seq<string>, active: string): string
    requires |order| > 0
  {
    if active in order then order[Cyclic.Succ(FirstIndex(order, active), |order|)] else order[0]
  }

  /** The id `PrevSession` makes active: the one before `active`, wrapping; `order[0]` if `active` is not listed. */
  function PrevActive(order: seq<string>, active: string): string
    requires |order| > 0
  {
    if active in order then order[Cyclic.Pred(FirstIndex(order, active), |order|)] else order[0]
  }

  /** The active id after the session `id` has been taken out of the registry. */
  function ActiveAfterRemoval(order: seq<string>, active: string, id: string): string
  {
    if active == id then (if |order| > 0 then order[0] else "") else active
  }

  class Multiplexer {
    var sessions: map<string, Session>
    var order: seq<string>
    var active: string
    /** The configured shell (`config.Shell`) every session starts. */
    const shell: string

    /** `order` lists exactly the map's keys, once each; `active` is "" or a key. */
    ghost predicate Valid()
      reads this
    {
      && (forall id :: id in order <==> id in sessions)
      && NoDups(order)
      && (active == "" || active in sessions)
    }

    /** With no "" id in use, `active` is "" exactly when the registry is empty. */
    ghost predicate Live()
      reads this
    {
      "" !in sessions && (active == "" <==> order == [])
    }

    /** `NewMultiplexer`. */
    constructor (shell: string)
      ensures Valid() && Live()
      ensures sessions == map[] && order == [] && active == "" && this.shell == shell
    {
      sessions := map[];
      order := [];
      active := "";
      this.shell := shell;
    }

    /**
     * `CreateSession(id)`; `started` is whether the new session's `Start`
     * succeeds. Nothing changes on a duplicate id or a failed start.
     */
    method CreateSession(id: string, started: bool) returns (r: Result<Session, Error>)
      requires Valid()
      modifies this
      ensures Valid()
      ensures id in old(sessions) ==>
                r == Err(SessionExists(id)) &&
                sessions == old(sessions) && order == old(order) && active == old(active)
      ensures id !in old(sessions) && !started ==>
                r == Err(ProcessError) &&
                sessions == old(sessions) && order == old(order) && active == old(active)
      ensures id !in old(sessions) && started ==>
                && r == Ok(NewSession(id, shell))
                && sessions == old(sessions)[id := r.value]
                && order == old(order) + [id]
                && active == (if old(active) == "" then id else old(active))
      ensures old(Live()) && id != "" ==> Live()
    {
      if id in sessions {
        return Err(SessionExists(id));
      }
      var session := NewSession(id, shell);
      if !started {
        return Err(ProcessError);
      }
      sessions := sessions[id := session];
      order := order + [id];
      if active == "" {
        active := id;
      }
      r := Ok(session);
    }

    /** `GetSession(id)`. */
    function GetSession(id: string): (r: Result<Session, Error>)
      reads this
      ensures id in sessions <==> r.Ok?
      ensures r.Ok? ==> r.value == sessions[id]
      ensures r.Err? ==> r.error == SessionNotFound
    {
      if id in sessions then Ok(sessions[id]) else Err(SessionNotFound)
    }

    /** Splices the first occurrence of `id` out of `order`. */
    method RemoveFromOrder(id: string)
      modifies this`order
      ensures order == RemoveFirst(old(order), id)
    {
      var i := 0;
      while i < |order|
        invariant 0 <= i <= |order|
        invariant order == old(order)
        invariant forall k :: 0 <= k < i ==> order[k] != id
      {
        if order[i] == id {
          RemoveFirstAt(order, id, i);
          order := order[..i] + order[i + 1..];
          return;
        }
        i := i + 1;
      }
      RemoveFirstAbsent(order, id);
    }

    /**
     * `CloseSession(id)`; `closed` is whether the session's `Close`
     * succeeds. When it fails the error is returned and the entry is kept.
     */
    method CloseSession(id: string, closed: bool) returns (r: Outcome<Error>)
      requires Valid()
      modifies this
      ensures Valid()
      ensures id !in old(sessions) ==>
                r == Fail(SessionNotFound) &&
                sessions == old(sessions) && order == old(order) && active == old(active)
      ensures id in old(sessions) && !closed ==>
                r == Fail(ProcessError) &&
                sessions == old(sessions) && order == old(order) && active == old(active)
      ensures id in old(sessions) && closed ==>
                && r == Pass
                && sessions == old(sessions) - {id}
                && order == RemoveFirst(old(order), id)
                && active == ActiveAfterRemoval(order, old(active), id)
      ensures old(Live()) ==> Live()
    {
      if id !in sessions {
        return Fail(SessionNotFound);
      }
      if !closed {
        return Fail(ProcessError);
      }
      sessions := sessions - {id};
      RemoveFromOrder(id);
      if active == id {
        if |order| > 0 {
          active := order[0];
        } else {
          active := "";
        }
      }
      r := Pass;
    }

    /** `ListSessions`: a copy of `order`, as long as the registry is large. */
    function ListSessions(): (r: seq<string>)
      requires Valid()
      reads this
      ensures r == order
      ensures |r| == SessionCount() && NoDups(r)
      ensures forall id :: id in r <==> id in sessions
    {
      OrderCoversKeys(order, sessions);
      order
    }

    /** `GetActive`: the active session, or not-found when none is active. */
    function GetActive(): (r: Result<Session, Error>)
      reads this
      ensures r.Ok? <==> active != "" && active in sessions
      ensures r.Ok? ==> r.value == sessions[active]
      ensures r.Err? ==> r.error == SessionNotFound
    {
      if active == "" then Err(SessionNotFound)
      else if active in sessions then Ok(sessions[active])
      else Err(SessionNotFound)
    }

    /** `SetActive(id)`: only a known id becomes active. */
    method SetActive(id: string) returns (r: Outcome<Error>)
      requires Valid()
      modifies this`active
      ensures Valid()
      ensures id in sessions ==> r == Pass && active == id
      ensures id !in sessions ==> r == Fail(SessionNotFound) && active == old(active)
      ensures old(Live()) ==> Live()
    {
      if id !in sessions {
        return Fail(SessionNotFound);
      }
      active := id;
      r := Pass;
    }

    /** `GetActiveID`. */
    function GetActiveID(): (r: string)
      requires Valid()
      reads this
      ensures r == active
      ensures r == "" || r in sessions
    {
      active
    }

    /** `NextSession`: the next id in `order` becomes active, wrapping round. */
    method NextSession() returns (r: Outcome<Error>)
      requires Valid()
      modifies this`active
      ensures Valid()
      ensures order == [] ==> r == Fail(SessionNotFound) && active == old(active)
      ensures order != [] ==> r == Pass && active == NextActive(order, old(active))
      ensures old(Live()) ==> Live()
    {
      if |order| == 0 {
        return Fail(SessionNotFound);
      }
      var i := 0;
      while i < |order|
        invariant 0 <= i <= |order|
        invariant active == old(active)
        invariant forall k :: 0 <= k < i ==> order[k] != active
      {
        if order[i] == active {
          active := order[(i + 1) % |order|];
          return Pass;
        }
        i := i + 1;
      }
      active := order[0];
      r := Pass;
    }

    /** `PrevSession`: the previous id in `order` becomes active, wrapping round. */
    method PrevSession() returns (r: Outcome<Error>)
      requires Valid()
      modifies this`active
      ensures Valid()
      ensures order == [] ==> r == Fail(SessionNotFound) && active == old(active)
      ensures order != [] ==> r == Pass && active == PrevActive(order, old(active))
      ensures old(Live()) ==> Live()
    {
      if |order| == 0 {
        return Fail(SessionNotFound);
      }
      var i := 0;
      while i < |order|
        invariant 0 <= i <= |order|
        invariant active == old(active)
        invariant forall k :: 0 <= k < i ==> order[k] != active
      {
        if order[i] == active {
          var idx := i - 1;
          if idx < 0 {
            idx := |order| - 1;
          }
          active := order[idx];
          return Pass;
        }
        i := i + 1;
      }
      active := order[0];
      r := Pass;
    }

    /** `SessionCount`: the number of map entries, which is the length of `order`. */
    function SessionCount(): (n: nat)
      requires Valid()
      reads this
      ensures n == |order|
    {
      OrderCoversKeys(order, sessions);
      |sessions|
    }

    /**
     * `CleanupDeadSessions`; `alive` holds the ids whose `IsAlive` reports
     * true. Every other session is dropped from the map and from `order`.
     * The ids are visited in an arbitrary order, like Go's map iteration.
     */
    method CleanupDeadSessions(alive: set<string>)
      requires Valid()
      modifies this
      ensures Valid()
      ensures sessions == old(sessions) - (old(sessions).Keys - alive)
      ensures order == Without(old(order), old(sessions).Keys - alive)
      ensures active == (if old(active) != "" && old(active) !in sessions
                         then (if |order| > 0 then order[0] else "")
                         else old(active))
      ensures old(Live()) ==> Live()
    {
      var dead := CollectDead(alive);
      RemoveAll(dead);
      assert (set x | x in dead) == old(sessions).Keys - alive;
      if active != "" {
        if active !in sessions {
          if |order| > 0 {
            active := order[0];
          } else {
            active := "";
          }
        }
      }
    }

    /** The first loop of `CleanupDeadSessions`: the ids whose session is not alive. */
    method CollectDead(alive: set<string>) returns (dead: seq<string>)
      ensures forall x :: x in dead <==> x in sessions && x !in alive
      ensures NoDups(dead)
    {
      dead := [];
      var pending := sessions.Keys;
      while pending != {}
        invariant pending <= sessions.Keys
        invariant forall x :: x in dead <==> x in sessions && x !in pending && x !in alive
        invariant NoDups(dead)
        decreases pending
      {
        var id :| id in pending;
        if id !in alive {
          dead := dead + [id];
        }
        pending := pending - {id};
      }
    }

    /** The second loop of `CleanupDeadSessions`: deletes each listed id from the map and from `order`. */
    method RemoveAll(dead: seq<string>)
      requires NoDups(order)
      modifies this`sessions, this`order
      ensures sessions == old(sessions) - (set x | x in dead)
      ensures order == Without(old(order), set x | x in dead)
    {
      ghost var gone: set<string> := {};
      WithoutNothing(order, gone);
      var k := 0;
      while k < |dead|
        invariant 0 <= k <= |dead|
        invariant gone == set x | x in dead[..k]
        invariant sessions == old(sessions) - gone
        invariant order == Without(old(order), gone)
      {
        var id := dead[k];
        sessions := sessions - {id};
        WithoutThenRemove(old(order), gone, id);
        RemoveFromOrder(id);
        gone := gone + {id};
        assert dead[..k + 1] == dead[..k] + [id];
        k := k + 1;
      }
      assert dead[..k] == dead;
    }
  }

  /** The splice `s[:i] ++ s[i+1:]` at the first occurrence is `RemoveFirst`. */
  lemma {:induction false} RemoveFirstAt(s: seq<string>, id: string, i: nat)
    requires i < |s| && s[i] == id
    requires forall k :: 0 <= k < i ==> s[k] != id
    ensures RemoveFirst(s, id) == s[..i] + s[i + 1..]
  {
    if i > 0 {
      RemoveFirstAt(s[1..], id, i - 1);
      assert s[1..][..i - 1] == s[1..i];
      assert s[1..][i..] == s[i + 1..];
      assert s[..i] == [s[0]] + s[1..i];
    }
  }

  lemma {:induction false} RemoveFirstAbsent(s: seq<string>, id: string)
    requires id !in s
    ensures RemoveFirst(s, id) == s
  {
    if s != [] {
      RemoveFirstAbsent(s[1..], id);
    }
  }

  /** On a list without duplicates, removing the first occurrence removes every occurrence. */
  lemma {:induction false} RemoveFirstIsWithout(s: seq<string>, id: string)
    requires NoDups(s)
    ensures RemoveFirst(s, id) == Without(s, {id})
  {
    if s != [] {
      RemoveFirstIsWithout(s[1..], id);
      if s[0] == id {
        assert id !in s[1..];
        WithoutNothing(s[1..], {id});
      }
    }
  }

  lemma {:induction false} WithoutNothing(s: seq<string>, gone: set<string>)
    requires forall x :: x in s ==> x !in gone
    ensures Without(s, gone) == s
  {
    if s != [] {
      WithoutNothing(s[1..], gone);
      assert s == [s[0]] + s[1..];
    }
  }

  /** One step of the cleanup loop: removing one more id from a filtered list. */
  lemma {:induction false} WithoutThenRemove(s: seq<string>, gone: set<string>, id: string)
    requires NoDups(s)
    ensures RemoveFirst(Without(s, gone), id) == Without(s, gone + {id})
  {
    if s != [] {
      var x, t := s[0], s[1..];
      assert NoDups(t);
      WithoutThenRemove(t, gone, id);
      if x in gone {
        assert Without(s, gone) == Without(t, gone);
        assert Without(s, gone + {id}) == Without(t, gone + {id});
      } else if x == id {
        assert Without(s, gone) == [id] + Without(t, gone);
        assert id !in t;
        WithoutNothingMore(t, gone, id);
        assert Without(s, gone + {id}) == Without(t, gone + {id});
      } else {
        assert Without(s, gone) == [x] + Without(t, gone);
        assert Without(s, gone + {id}) == [x] + Without(t, gone + {id});
      }
    }
  }

  lemma {:induction false} WithoutNothingMore(s: seq<string>, gone: set<string>, id: string)
    requires id !in s
    ensures Without(s, gone + {id}) == Without(s, gone)
  {
    if s != [] {
      WithoutNothingMore(s[1..], gone, id);
    }
  }

  /** A duplicate-free list has as many elements as its set. */
  lemma {:induction false} DistinctCount(s: seq<string>)
    requires NoDups(s)
    ensures |set x | x in s| == |s|
  {
    if s != [] {
      DistinctCount(s[1..]);
      assert (set x | x in s) == {s[0]} + (set x | x in s[1..]);
      assert s[0] !in (set x | x in s[1..]);
    }
  }

  /** When `order` lists the keys once each, the map has |order| entries. */
  lemma OrderCoversKeys(order: seq<string>, sessions: map<string, Session>)
    requires forall id :: id in order <==> id in sessions
    requires NoDups(order)
    ensures |sessions| == |order|
  {
    DistinctCount(order);
    assert sessions.Keys == set x | x in order;
  }

  /** On a duplicate-free list, `NextActive` moves from `order[i]` to `order[Succ(i)]`. */
  lemma NextAt(order: seq<string>, i: nat)
    requires NoDups(order) && i < |order|
    ensures NextActive(order, order[i]) == order[Cyclic.Succ(i, |order|)]
    ensures PrevActive(order, order[i]) == order[Cyclic.Pred(i, |order|)]
  {
    assert FirstIndex(order, order[i]) == i;
  }

  /** `PrevSession` undoes `NextSession`, and the other way round. */
  lemma PrevUndoesNext(order: seq<string>, a: string)
    requires NoDups(order) && a in order
    ensures PrevActive(order, NextActive(order, a)) == a
    ensures NextActive(order, PrevActive(order, a)) == a
  {
    var i := FirstIndex(order, a);
    var n := |order|;
    Cyclic.PredSucc(i, n);
    NextAt(order, i);
    NextAt(order, Cyclic.Succ(i, n));
    NextAt(order, Cyclic.Pred(i, n));
  }

  /** k successive `NextSession` steps from `active`. */
  function NextIter(order: seq<string>, active: string, k: nat): string
    requires |order| > 0
    decreases k
  {
    if k == 0 then active else NextIter(order, NextActive(order, active), k - 1)
  }

  lemma {:induction false} NextIterAt(order: seq<string>, i: nat, k: nat)
    requires NoDups(order) && i < |order|
    ensures Cyclic.SuccIter(i, k, |order|) < |order|
    ensures NextIter(order, order[i], k) == order[Cyclic.SuccIter(i, k, |order|)]
    decreases k
  {
    Cyclic.SuccIterBound(i, k, |order|);
    if k > 0 {
      NextAt(order, i);
      Cyclic.SuccCases(i, |order|);
      NextIterAt(order, Cyclic.Succ(i, |order|), k - 1);
    }
  }

  /** As many `NextSession` steps as there are sessions bring the active session back. */
  lemma NextCycle(order: seq<string>, a: string)
    requires NoDups(order) && a in order
    ensures NextIter(order, a, |order|) == a
  {
    var i := FirstIndex(order, a);
    NextIterAt(order, i, |order|);
    Cyclic.SuccCycle(i, |order|);
  }

  /** Over the order a, b, c, `NextSession` steps a to b to c and back to a. */
  lemma ThreeCycle(order: seq<string>)
    requires order == ["a", "b", "c"]
    ensures NoDups(order)
    ensures NextActive(order, "a") == "b"
    ensures NextActive(order, "b") == "c"
    ensures NextActive(order, "c") == "a"
  {
    assert NoDups(order);
    NextAt(order, 0);
    NextAt(order, 1);
    NextAt(order, 2);
  }

  /** Creating sessions "a", "b", "c" in turn in a new registry. */
  method CreateThree() returns (m: Multiplexer)
    ensures fresh(m) && m.Valid()
    ensures m.order == ["a", "b", "c"] && m.active == "a"
  {
    m := new Multiplexer("/bin/sh");
    var ra := m.CreateSession("a", true);
    assert m.order == ["a"] && m.active == "a";
    var rb := m.CreateSession("b", true);
    assert m.order == ["a", "b"] && m.active == "a";
    var rc := m.CreateSession("c", true);
  }

  /**
   * Sessions "a", "b", "c" created in that order: "a" is active, two
   * `NextSession` calls make "c" active, and a third wraps round to "a".
   * `seen` lists the active id after creation and after each call.
   */
  method ThreeSessionScenario() returns (seen: seq<string>)
    ensures seen == ["a", "b", "c", "a"]
  {
    var m := CreateThree();
    ThreeCycle(m.order);
    seen := [m.active];
    var r := m.NextSession();
    seen := seen + [m.active];
    r := m.NextSession();
    seen := seen + [m.active];
    r := m.NextSession();
    seen := seen + [m.active];
  }
}
