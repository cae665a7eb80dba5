/**
  The lock as it is written: a packed unsigned word and two gates.  Each
  method is one critical section of the mutex and refines its step on the
  unpacked monitor.
*/
module SharedMutexImpl {
  import opened UnsignedBits
  import opened SharedMutexProtocol

  /** `unsigned` is 32 bits wide. */
  type Word = w: nat | w <= 0xffff_ffff

  const WRITE_ENTERED: Word := 0x8000_0000   // 1U << 31
  const N_READERS: Word := Not(WRITE_ENTERED)

  function Not(w: Word): Word {
    0xffff_ffff - w
  }

  /** Subtracting one from an unsigned zero wraps. */
  function Minus1(w: Word): Word {
    if w == 0 then 0xffff_ffff else w - 1
  }

  predicate WriteBit(w: Word) {
    w >= WRITE_ENTERED
  }

  function ReaderCount(w: Word): nat {
    if WriteBit(w) then w - WRITE_ENTERED else w
  }

  /** state &= ~__n_readers_; state |= n */
  function SetReaders(w: Word, n: Word): nat {
    Or(And(w, Not(N_READERS)), n)
  }

  lemma Masks(w: Word)
    ensures WRITE_ENTERED == 0x8000_0000 && N_READERS == 0x7fff_ffff
    ensures And(w, 0x8000_0000) == if w >= 0x8000_0000 then 0x8000_0000 else 0
    ensures And(w, 0x7fff_ffff) == if w >= 0x8000_0000 then w - 0x8000_0000 else w
    ensures WriteBit(w) == (And(w, 0x8000_0000) != 0) && ReaderCount(w) == And(w, 0x7fff_ffff) <= N_READERS
  {
    Pow2Of31();
    AndTopBit(w, 31);
    AndLowBits(w, 31);
  }

  lemma Pow2Of31()
    ensures Pow2(31) == WRITE_ENTERED && Pow2(32) == 0x1_0000_0000
  {
    assert Pow2(10) == 1024;
    assert Pow2(20) == 1024 * Pow2(10);
    assert Pow2(30) == 1024 * Pow2(20);
  }

  lemma OrWriteBit(n: Word)
    ensures Or(0, n) == n
    ensures Or(WRITE_ENTERED, n) == Or(n, WRITE_ENTERED) == if WriteBit(n) then n else n + WRITE_ENTERED
  {
    Pow2Of31();
    OrZero(n);
    OrTopBit(n, 31);
  }

  /** Adding a reader to a count that is not full never carries into the write bit. */
  lemma AddReader(w: Word)
    requires ReaderCount(w) != N_READERS
    ensures And(w, N_READERS) < N_READERS
    ensures var w' := SetReaders(w, And(w, N_READERS) + 1);
      w' <= 0xffff_ffff && WriteBit(w') == WriteBit(w) && ReaderCount(w') == ReaderCount(w) + 1
  {
    Masks(w);
    OrWriteBit(ReaderCount(w) + 1);
  }

  /** Removing a reader borrows from the write bit exactly when there is neither reader nor writer. */
  lemma RemoveReader(w: Word)
    ensures And(w, N_READERS) == ReaderCount(w)
    ensures var w' := SetReaders(w, Minus1(ReaderCount(w)));
      && w' <= 0xffff_ffff
      && (WriteBit(w') == WriteBit(w) <==> ReaderCount(w) > 0 || WriteBit(w))
      && (ReaderCount(w) > 0 ==> ReaderCount(w') == ReaderCount(w) - 1)
  {
    Masks(w);
    OrWriteBit(Minus1(ReaderCount(w)));
  }

  class SharedMutex {
    var state: Word
    var gate1: set<Tid>
    var gate2: set<Tid>

    function View(): Monitor
      reads this
    {
      Monitor(WriteBit(state), ReaderCount(state), gate1, gate2)
    }

    constructor ()
      ensures View() == FREE
    {
      state, gate1, gate2 := 0, {}, {};
    }

    /** lock(), from its entry or from a wake-up on gate 1. */
    method Lock(t: Tid) returns (out: Outcome)
      modifies this
      ensures (View(), out) == LockSegment(old(View()), t)
    {
      Masks(state);
      if And(state, WRITE_ENTERED) != 0 {
        gate1 := gate1 + {t};
        return AsleepOnGate1;
      }
      OrWriteBit(state);
      state := Or(state, WRITE_ENTERED);
      out := Drain(t);
    }

    /** lock(), from its second loop or from a wake-up on gate 2. */
    method Drain(t: Tid) returns (out: Outcome)
      modifies this
      ensures (View(), out) == DrainSegment(old(View()), t)
    {
      Masks(state);
      if And(state, N_READERS) != 0 {
        gate2 := gate2 + {t};
        return AsleepOnGate2;
      }
      return Acquired;
    }

    method TryLock() returns (ok: bool)
      modifies this
      ensures (View(), ok) == SharedMutexProtocol.TryLock(old(View()))
    {
      if state == 0 {
        state := WRITE_ENTERED;
        return true;
      }
      return false;
    }

    method Unlock()
      modifies this
      ensures View() == SharedMutexProtocol.Unlock(old(View()))
    {
      state := 0;
      gate1 := {};
    }

    /** lock_shared(), from its entry or from a wake-up on gate 1. */
    method LockShared(t: Tid) returns (out: Outcome)
      modifies this
      ensures (View(), out) == LockSharedSegment(old(View()), t, N_READERS)
    {
      Masks(state);
      if And(state, WRITE_ENTERED) != 0 || And(state, N_READERS) == N_READERS {
        gate1 := gate1 + {t};
        return AsleepOnGate1;
      }
      AddReader(state);
      state := SetReaders(state, And(state, N_READERS) + 1);
      return Acquired;
    }

    method TryLockShared() returns (ok: bool)
      modifies this
      ensures (View(), ok) == SharedMutexProtocol.TryLockShared(old(View()), N_READERS)
    {
      Masks(state);
      var readers := And(state, N_READERS);
      if And(state, WRITE_ENTERED) == 0 && readers != N_READERS {
        AddReader(state);
        state := SetReaders(state, readers + 1);
        return true;
      }
      return false;
    }

    /** `pick` is the sleeper that a notification reaches; which one it is, is left open. */
    method UnlockShared() returns (ghost pick: Tid)
      requires View().readers > 0
      modifies this
      ensures CanWake(Notified(old(View()), N_READERS), pick)
      ensures View() == SharedMutexProtocol.UnlockShared(old(View()), N_READERS, pick)
    {
      pick := 0;
      var readers := TakeReader();
      Masks(state);
      if And(state, WRITE_ENTERED) != 0 {
        if readers == 0 {
          gate2, pick := NotifyOne(gate2);
        }
      } else if readers == N_READERS - 1 {
        gate1, pick := NotifyOne(gate1);
      }
    }

    method TakeReader() returns (readers: nat)
      requires View().readers > 0
      modifies this
      ensures View() == old(View()).(readers := readers) && readers == old(View()).readers - 1
    {
      Masks(state);
      RemoveReader(state);
      readers := Minus1(And(state, N_READERS));
      state := SetReaders(state, readers);
    }
  }

  method NotifyOne(gate: set<Tid>) returns (rest: set<Tid>, ghost pick: Tid)
    ensures CanWake(gate, pick) && rest == gate - {pick}
  {
    if gate == {} {
      return gate, 0;
    }
    var t :| t in gate;
    return gate - {t}, t;
  }
}
