/** The process table: what wakeup1, exit, wait, kill and allocproc do to it while they
  hold ptable.lock, as loops over the slots and slot by slot.
 */
module ProcTable {
  import opened Common

  datatype ProcState = UNUSED | EMBRYO | SLEEPING | RUNNABLE | RUNNING | ZOMBIE

  /** The address of a process's slot, or of anything else. */
  datatype Chan = NoChan | ProcChan(slot: nat) | OtherChan(id: nat)

  /** The init process is in slot 0; parent is a slot. */
  datatype Slot = Slot(state: ProcState, pid: nat, parent: Option<nat>, chan: Chan, killed: bool)

  const INIT: nat := 0

  function WakeSlot(sl: Slot, c: Chan): Slot {
    if sl.state == SLEEPING && sl.chan == c then sl.(state := RUNNABLE) else sl
  }

  function AdoptSlot(sl: Slot, p: nat): Slot {
    if sl.parent == Some(p) then sl.(parent := Some(INIT)) else sl
  }

  predicate ZombieChild(sl: Slot, p: nat) {
    sl.parent == Some(p) && sl.state == ZOMBIE
  }

  /** p leaves a zombie among its children in slots below k. */
  predicate Orphans(slots: seq<Slot>, p: nat, k: nat)
    requires k <= |slots|
  {
    exists i :: 0 <= i < k && ZombieChild(slots[i], p)
  }

  /** What exit by p makes of slot i. */
  function ExitSlot(slots: seq<Slot>, p: nat, i: nat): Slot
    requires i < |slots| && p < |slots| && slots[p].parent.Some?
  {
    var a := AdoptSlot(WakeSlot(slots[i], ProcChan(slots[p].parent.value)), p);
    var b := if Orphans(slots, p, |slots|) then WakeSlot(a, ProcChan(INIT)) else a;
    if i == p then b.(state := ZOMBIE) else b
  }

  function Freed(sl: Slot): Slot {
    Slot(UNUSED, 0, None, sl.chan, false)
  }

  /** What kill makes of the slot it finds. */
  function Doomed(sl: Slot): Slot {
    Slot(if sl.state == SLEEPING then RUNNABLE else sl.state, sl.pid, sl.parent, sl.chan, true)
  }

  /** The first slot with that pid, |slots| if there is none. */
  function FirstWith(slots: seq<Slot>, pid: nat): (k: nat)
    ensures k <= |slots| && (k < |slots| ==> slots[k].pid == pid)
    ensures forall i {:trigger slots[i]} :: 0 <= i < k ==> slots[i].pid != pid
  {
    if slots == [] then 0
    else
      var k := FirstWith(slots[..|slots| - 1], pid);
      if k < |slots| - 1 || slots[|slots| - 1].pid == pid then k else |slots|
  }

  /** What kill makes of the table. */
  function Killed(slots: seq<Slot>, pid: nat): seq<Slot> {
    var k := FirstWith(slots, pid);
    if k < |slots| then slots[k := Doomed(slots[k])] else slots
  }

  /** The outcomes of one pass of wait: a child reaped, nothing to wait for, or asleep. */
  datatype Waited = Reaped(slot: nat, pid: nat) | Refused | Slept

  class Ptable {
    const proc: array<Slot>

    constructor (n: nat)
      requires n > 0
      ensures fresh(proc) && proc.Length == n
      ensures forall i :: 0 <= i < n ==> proc[i] == Slot(UNUSED, 0, None, NoChan, false)
    {
      proc := new Slot[n](_ => Slot(UNUSED, 0, None, NoChan, false));
    }

    method Wakeup1(c: Chan)
      modifies proc
      ensures forall i :: 0 <= i < proc.Length ==> proc[i] == WakeSlot(old(proc[i]), c)
      ensures forall i :: 0 <= i < proc.Length ==> proc[i] == old(proc[i]).(state :=
                if old(proc[i]).state == SLEEPING && old(proc[i]).chan == c then RUNNABLE else old(proc[i]).state)
    {
      for k := 0 to proc.Length
        invariant forall i :: 0 <= i < proc.Length ==>
                  proc[i] == if i < k then WakeSlot(old(proc[i]), c) else old(proc[i])
      {
        if proc[k].state == SLEEPING && proc[k].chan == c {
          proc[k] := proc[k].(state := RUNNABLE);
        }
      }
    }

    /** exit, from acquiring ptable.lock to sched. */
    method Exit(p: nat)
      requires p < proc.Length && proc[p].parent.Some?
      modifies proc
      ensures forall i :: 0 <= i < proc.Length ==> proc[i] == ExitSlot(old(proc[..]), p, i)
      ensures proc[p].state == ZOMBIE
      ensures forall i :: 0 <= i < proc.Length ==>
                && proc[i].pid == old(proc[i]).pid && proc[i].chan == old(proc[i]).chan
                && proc[i].killed == old(proc[i]).killed
                && proc[i].parent == if old(proc[i]).parent == Some(p) then Some(INIT) else old(proc[i]).parent
      ensures forall i :: 0 <= i < proc.Length && i != p ==>
                (proc[i].state == if old(proc[i]).state == SLEEPING
                                     && (old(proc[i]).chan == ProcChan(old(proc[p]).parent.value)
                                         || (old(proc[i]).chan == ProcChan(INIT)
                                             && exists k :: 0 <= k < proc.Length && old(proc[k]).parent == Some(p)
                                                   && old(proc[k]).state == ZOMBIE))
                                  then RUNNABLE else old(proc[i]).state)
    {
      ghost var t := proc[..];
      ghost var c := ProcChan(proc[p].parent.value);
      Wakeup1(ProcChan(proc[p].parent.value));
      for k := 0 to proc.Length
        invariant forall i :: 0 <= i < proc.Length ==>
                    proc[i] == var a := WakeSlot(t[i], c);
                               var b := if i < k then AdoptSlot(a, p) else a;
                               if Orphans(t, p, k) then WakeSlot(b, ProcChan(INIT)) else b
      {
        assert Orphans(t, p, k + 1) <==> Orphans(t, p, k) || ZombieChild(t[k], p);
        if proc[k].parent == Some(p) {
          proc[k] := proc[k].(parent := Some(INIT));
          if proc[k].state == ZOMBIE {
            Wakeup1(ProcChan(INIT));
          }
        }
      }
      proc[p] := proc[p].(state := ZOMBIE);
    }

    /** One pass of wait's loop: reap the first zombie child, else give up or sleep. */
    method Wait(p: nat) returns (r: Waited)
      requires p < proc.Length
      modifies proc
      ensures r.Reaped? ==>
                && r.slot < proc.Length && old(proc[r.slot]).parent == Some(p) && old(proc[r.slot]).state == ZOMBIE
                && r.pid == old(proc[r.slot]).pid
                && proc[..] == old(proc[..])[r.slot := Slot(UNUSED, 0, None, old(proc[r.slot]).chan, false)]
      ensures r.Reaped? ==> forall i :: 0 <= i < r.slot ==> !ZombieChild(old(proc[i]), p)
      ensures !r.Reaped? ==> forall i :: 0 <= i < proc.Length ==> !ZombieChild(old(proc[i]), p)
      ensures r == Refused <==> (forall i :: 0 <= i < proc.Length ==> !ZombieChild(old(proc[i]), p))
                                && ((forall i :: 0 <= i < proc.Length ==> old(proc[i]).parent != Some(p))
                                     || old(proc[p]).killed)
      ensures r == Refused ==> proc[..] == old(proc[..])
      ensures r == Slept ==> exists i :: 0 <= i < proc.Length && old(proc[i]).parent == Some(p)
      ensures r == Slept ==> proc[..] == old(proc[..])[p := old(proc[p]).(chan := ProcChan(p), state := SLEEPING)]
    {
      var havekids := false;
      for k := 0 to proc.Length
        invariant proc[..] == old(proc[..])
        invariant havekids <==> exists i :: 0 <= i < k && proc[i].parent == Some(p)
        invariant forall i :: 0 <= i < k ==> !ZombieChild(proc[i], p)
      {
        if proc[k].parent != Some(p) {
          continue;
        }
        havekids := true;
        if proc[k].state == ZOMBIE {
          var pid := proc[k].pid;
          proc[k] := Slot(UNUSED, 0, None, proc[k].chan, false);
          return Reaped(k, pid);
        }
      }
      if !havekids || proc[p].killed {
        return Refused;
      }
      proc[p] := proc[p].(chan := ProcChan(p), state := SLEEPING);
      return Slept;
    }

    method Kill(pid: nat) returns (r: Option<nat>)
      modifies proc
      ensures r == None ==> proc[..] == old(proc[..]) && forall i :: 0 <= i < proc.Length ==> old(proc[i]).pid != pid
      ensures r.Some? ==>
                && r.value < proc.Length && old(proc[r.value]).pid == pid && proc[r.value].killed
                && proc[r.value].state == (if old(proc[r.value]).state == SLEEPING then RUNNABLE
                                           else old(proc[r.value]).state)
                && proc[r.value].pid == pid && proc[r.value].parent == old(proc[r.value]).parent
                && proc[r.value].chan == old(proc[r.value]).chan
                && forall i :: 0 <= i < proc.Length && i != r.value ==> proc[i] == old(proc[i])
      ensures proc[..] == Killed(old(proc[..]), pid)
      ensures r.Some? ==> forall i :: 0 <= i < r.value ==> old(proc[i]).pid != pid
    {
      for k := 0 to proc.Length
        invariant proc[..] == old(proc[..]) && forall i :: 0 <= i < k ==> proc[i].pid != pid
      {
        if proc[k].pid == pid {
          proc[k] := proc[k].(killed := true);
          if proc[k].state == SLEEPING {
            proc[k] := proc[k].(state := RUNNABLE);
          }
          assert k == FirstWith(old(proc[..]), pid);
          return Some(k);
        }
      }
      return None;
    }

    /** allocproc's locked part. */
    method Alloc(nextpid: nat) returns (r: Option<nat>)
      modifies proc
      ensures r == None ==> proc[..] == old(proc[..]) && forall i :: 0 <= i < proc.Length ==>
              old(proc[i]).state != UNUSED
      ensures r.Some? ==> r.value < proc.Length && old(proc[r.value]).state == UNUSED
                          && proc[..] == old(proc[..])[r.value := old(proc[r.value]).(state := EMBRYO, pid := nextpid)]
                          && forall i :: 0 <= i < r.value ==> old(proc[i]).state != UNUSED
    {
      for k := 0 to proc.Length
        invariant proc[..] == old(proc[..]) && forall i :: 0 <= i < k ==> proc[i].state != UNUSED
      {
        if proc[k].state == UNUSED {
          proc[k] := proc[k].(state := EMBRYO, pid := nextpid);
          return Some(k);
        }
      }
      return None;
    }
  }
}
