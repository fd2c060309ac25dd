/** The guard-interval search of lgs8gxx.c against an arbitrary demodulator:
    read number k of a run, of register r, returns `answer(k, r)`. */
module LockSearch {

  import opened Lgs8gxx

  const GI_MASK: bv8 := 0x03

  /** The guard intervals with their register codes and symbol lengths. */
  datatype Guard = Gi420 | Gi595 | Gi945 {
    function Code(): (c: bv8)
      ensures c <= GI_MASK
    {
      match this
      case Gi420 => 0x00
      case Gi595 => 0x01
      case Gi945 => 0x02
    }

    function Length(): nat {
      match this
      case Gi420 => 420
      case Gi595 => 595
      case Gi945 => 945
    }
  }

  /** Longest sleep of one attempt: the reset, then either poll running out. */
  const ATTEMPT_MS: nat := 2251

  type Answers = (nat, nat) -> bv8

  /** A register polled until `hit`: the mask-and-compare of wait_reg_mask. */
  datatype Poll = Poll(reg: nat, hit: bv8 -> bool, delay: nat, tries: nat)

  function MaskedIs(mask: bv8, value: bv8): bv8 -> bool { (t: bv8) => t & mask == value }

  /** The status polls of a product: code acquisition, then the end of the
      automatic detection. */
  function CaPoll(p: Product): Poll {
    if p == Lgs8g75 then Poll(0x13, MaskedIs(0x80, 0x80), 50, 40) else Poll(0x4B, MaskedIs(0xC0, 0xC0), 50, 40)
  }

  function FinishedPoll(p: Product): Poll {
    if p == Lgs8g75 then Poll(0x1F, MaskedIs(0xC0, 0x80), 10, 20) else Poll(0xA4, MaskedIs(0x03, 0x01), 10, 20)
  }

  /** How many of the reads from `at` miss before the first hit, `tried` of
      the tries being used up already. */
  function Misses(d: Answers, at: nat, poll: Poll, tried: nat): (n: nat)
    ensures tried + n <= poll.tries || n == 0
    decreases poll.tries - tried
  {
    if tried >= poll.tries || poll.hit(d(at, poll.reg)) then 0
    else 1 + Misses(d, at + 1, poll, tried + 1)
  }

  /** Every read before the count misses, and the next one hits unless the
      tries have run out. */
  lemma {:induction false} MissesExact(d: Answers, at: nat, poll: Poll, tried: nat)
    requires tried <= poll.tries
    ensures var n := Misses(d, at, poll, tried);
      (forall k :: at <= k < at + n ==> !poll.hit(d(k, poll.reg))) &&
      (tried + n < poll.tries ==> poll.hit(d(at + n, poll.reg)))
    decreases poll.tries - tried
  {
    if tried < poll.tries && !poll.hit(d(at, poll.reg)) {
      MissesExact(d, at + 1, poll, tried + 1);
    }
  }

  predicate Hits(d: Answers, at: nat, poll: Poll) { Misses(d, at, poll, 0) < poll.tries }

  /** Where the next read after a poll is. */
  function AfterPoll(d: Answers, at: nat, poll: Poll): nat {
    at + Misses(d, at, poll, 0) + (if Hits(d, at, poll) then 1 else 0)
  }

  /** The order of the search: 945, 420 in both carrier modes, 595 in the
      second only; twice. */
  function Planned(k: nat): (Guard, bool) {
    match k % 5
    case 0 => (Gi945, false)
    case 1 => (Gi945, true)
    case 2 => (Gi420, false)
    case 3 => (Gi420, true)
    case _ => (Gi595, true)
  }

  /** One attempt made: what was programmed and where its polling began. */
  datatype Attempt = Attempt(gi: Guard, multi: bool, at: nat)

  /** Where a search began. */
  datatype Start = Start(read: nat, attempts: seq<Attempt>, slept: nat)

  /** Both polls of an attempt whose first status read is number `at`. */
  predicate Locks(p: Product, d: Answers, at: nat) {
    Hits(d, at, CaPoll(p)) && Hits(d, AfterPoll(d, at, CaPoll(p)), FinishedPoll(p))
  }

  /** The read after that attempt's polls. */
  function End(p: Product, d: Answers, at: nat): nat {
    var mid := AfterPoll(d, at, CaPoll(p));
    if Hits(d, at, CaPoll(p)) then AfterPoll(d, mid, FinishedPoll(p)) else mid
  }

  /** Reads made to set the mode, and to program one attempt. */
  function ModeReads(p: Product): nat { if p == Lgs8g75 then 1 else if p == Lgs8913 then 4 else 2 }

  function ProgramReads(p: Product): nat { if p == Lgs8g75 then 2 else 0 }

  /** A demodulator by what its answers make of an attempt that begins to poll
    at some read: whether it locks and where it ends; and by what its status
    registers show when read k is of them. */
  datatype Trail = Trail(locks: nat -> bool, end: nat -> nat, programReads: nat,
                         acquired: nat -> bool, finished: nat -> bool) {
    ghost predicate Describes(p: Product, d: Answers) {
      programReads == ProgramReads(p) &&
      (forall at: nat {:trigger Locks(p, d, at)} :: locks(at) == Locks(p, d, at)) &&
      forall at: nat {:trigger End(p, d, at)} :: end(at) == End(p, d, at)
    }

    /** The status bits: a lock is shown at 0x13 or 0x4B, the end of the
        detection at 0x1F or 0xA4. */
    ghost predicate Shows(p: Product, d: Answers) {
      (forall k: nat {:trigger acquired(k)} ::
         acquired(k) == if p == Lgs8g75 then d(k, 0x13) & 0x80 == 0x80 else d(k, 0x4B) & 0xC0 == 0xC0) &&
      forall k: nat {:trigger finished(k)} ::
        finished(k) == if p == Lgs8g75 then d(k, 0x1F) & 0xC0 == 0x80 else d(k, 0xA4) & 0x03 == 0x01
    }

    /** The reads of an attempt, [at, end): i acquisition reads miss and the next
        hits; then j detection reads miss and the next, the last, hits. */
    ghost predicate LocksAfter(at: nat, i: nat, j: nat, end: nat) {
      i < 40 && j < 20 && end == at + i + 1 + j + 1 &&
      (forall k :: at <= k < at + i ==> !acquired(k)) && acquired(at + i) &&
      (forall k :: at + i + 1 <= k < end - 1 ==> !finished(k)) && finished(end - 1)
    }

    /** All 40 acquisition reads miss. */
    ghost predicate NeverAcquires(at: nat, end: nat) {
      end == at + 40 && forall k :: at <= k < end ==> !acquired(k)
    }

    /** i acquisition reads miss and the next hits; then all 20 detection reads
        miss. */
    ghost predicate NeverFinishes(at: nat, i: nat, end: nat) {
      i < 40 && end == at + i + 1 + 20 &&
      (forall k :: at <= k < at + i ==> !acquired(k)) && acquired(at + i) &&
      forall k :: at + i + 1 <= k < end ==> !finished(k)
    }

    ghost predicate LocksTo(at: nat, end: nat) { exists i: nat, j: nat :: LocksAfter(at, i, j, end) }

    ghost predicate FailsTo(at: nat, end: nat) {
      NeverAcquires(at, end) || exists i: nat :: NeverFinishes(at, i, end)
    }

    /** Locking and failing are what the status bits say. */
    ghost predicate Meant() {
      forall at: nat {:trigger end(at)} :: if locks(at) then LocksTo(at, end(at)) else FailsTo(at, end(at))
    }

    /** Attempts made from read `from` on, which used up the reads to `end`: all
        failed but the last, if `locked`. */
    ghost predicate Explains(from: nat, made: seq<Attempt>, locked: bool, end: nat) {
      (made != [] ==> made[0].at == from + programReads) &&
      forall k :: 0 <= k < |made| ==>
        var next := if k + 1 < |made| then made[k + 1].at - programReads else end;
        next >= 0 && if locked && k + 1 == |made| then LocksTo(made[k].at, next) else FailsTo(made[k].at, next)
    }

    /** Where attempt k of a search that begins at read `from` begins, each
        right after the one before it; and where its polling begins. */
    function AttemptFrom(from: nat, k: nat): nat
      decreases k, 0
    {
      if k == 0 then from else end(PollsFrom(from, k - 1))
    }

    function PollsFrom(from: nat, k: nat): nat
      decreases k, 1
    {
      AttemptFrom(from, k) + programReads
    }

    /** The first n attempts of the plan, made one after the other. */
    function Made(from: nat, n: nat): seq<Attempt> {
      if n == 0 then []
      else Made(from, n - 1) + [Attempt(Planned(n - 1).0, Planned(n - 1).1, PollsFrom(from, n - 1))]
    }

    ghost predicate AllFail(from: nat, n: nat) { forall k :: 0 <= k < n ==> !locks(PollsFrom(from, k)) }

    /** Attempt k is the first to lock. */
    ghost predicate FirstLock(from: nat, k: nat) { AllFail(from, k) && locks(PollsFrom(from, k)) }
  }

  /** Every demodulator has one trail, and only one. */
  lemma TrailUnique(p: Product, d: Answers, t: Trail)
    ensures TrailOf(p, d).Describes(p, d)
    ensures t.Describes(p, d) ==>
      forall at: nat :: t.locks(at) == TrailOf(p, d).locks(at) && t.end(at) == TrailOf(p, d).end(at)
  {
    if t.Describes(p, d) {
      forall at: nat
        ensures t.locks(at) == TrailOf(p, d).locks(at) && t.end(at) == TrailOf(p, d).end(at)
      {
        assert t.locks(at) == Locks(p, d, at) && t.end(at) == End(p, d, at);
      }
    }
  }

  function TrailOf(p: Product, d: Answers): Trail {
    Trail((at: nat) => Locks(p, d, at), (at: nat) => End(p, d, at), ProgramReads(p), Acquired(p, d), Finished(p, d))
  }

  function Acquired(p: Product, d: Answers): nat -> bool {
    if p == Lgs8g75 then (k: nat) => d(k, 0x13) & 0x80 == 0x80 else (k: nat) => d(k, 0x4B) & 0xC0 == 0xC0
  }

  function Finished(p: Product, d: Answers): nat -> bool {
    if p == Lgs8g75 then (k: nat) => d(k, 0x1F) & 0xC0 == 0x80 else (k: nat) => d(k, 0xA4) & 0x03 == 0x01
  }

  lemma TrailShows(p: Product, d: Answers)
    ensures TrailOf(p, d).Shows(p, d)
  {
  }

  /** The trail's status bits are what the polls look for. */
  lemma ShowsHits(p: Product, d: Answers, t: Trail)
    requires t.Shows(p, d)
    ensures forall k: nat {:trigger t.acquired(k)} :: t.acquired(k) == CaPoll(p).hit(d(k, CaPoll(p).reg))
    ensures forall k: nat {:trigger t.finished(k)} :: t.finished(k) == FinishedPoll(p).hit(d(k, FinishedPoll(p).reg))
    ensures CaPoll(p).tries == 40 && FinishedPoll(p).tries == 20
  {
  }

  ghost predicate HitsAre(d: Answers, poll: Poll, hits: nat -> bool) {
    forall k: nat {:trigger hits(k)} :: hits(k) == poll.hit(d(k, poll.reg))
  }

  /** The reads of one poll by its hits. */
  lemma ReadsOf(d: Answers, poll: Poll, hits: nat -> bool, at: nat)
    requires HitsAre(d, poll, hits)
    ensures var n := Misses(d, at, poll, 0);
      n <= poll.tries && (forall k :: at <= k < at + n ==> !hits(k)) && (n < poll.tries ==> hits(at + n))
  {
    MissesExact(d, at, poll, 0);
  }

  /** What locking is, by the status bits read: both polls hit, each within its
      tries.  An attempt that does not lock has used up the tries of one. */
  lemma LocksMeans(p: Product, d: Answers, t: Trail, at: nat)
    requires t.Shows(p, d)
    ensures Locks(p, d, at) ==> t.LocksTo(at, End(p, d, at))
    ensures !Locks(p, d, at) ==> t.FailsTo(at, End(p, d, at))
  {
    ShowsHits(p, d, t);
    BothReads(d, CaPoll(p), FinishedPoll(p), t, at);
  }

  lemma BothReads(d: Answers, ca: Poll, finished: Poll, t: Trail, at: nat)
    requires HitsAre(d, ca, t.acquired) && HitsAre(d, finished, t.finished) && ca.tries == 40 && finished.tries == 20
    ensures var mid := AfterPoll(d, at, ca);
      if !Hits(d, at, ca) then t.FailsTo(at, mid)
      else if Hits(d, mid, finished) then t.LocksTo(at, AfterPoll(d, mid, finished))
      else t.FailsTo(at, AfterPoll(d, mid, finished))
  {
    var i := Misses(d, at, ca, 0);
    var j := Misses(d, at + i + 1, finished, 0);
    ReadsOf(d, ca, t.acquired, at);
    ReadsOf(d, finished, t.finished, at + i + 1);
    if i == 40 {
      assert t.NeverAcquires(at, at + i);
    } else if j == 20 {
      assert t.NeverFinishes(at, i, at + i + 1 + j);
    } else {
      assert t.LocksAfter(at, i, j, at + i + 1 + j + 1);
    }
  }

  lemma TrailMeant(p: Product, d: Answers, t: Trail)
    requires t.Describes(p, d) && t.Shows(p, d)
    ensures t.Meant()
  {
    forall at: nat
      ensures if t.locks(at) then t.LocksTo(at, t.end(at)) else t.FailsTo(at, t.end(at))
    {
      LocksMeans(p, d, t, at);
      assert t.locks(at) == Locks(p, d, at) && t.end(at) == End(p, d, at);
    }
  }

  /** The attempts of the plan by the status bits. */
  lemma {:induction false} MadeExplained(t: Trail, from: nat, n: nat, locked: bool)
    requires t.Meant()
    requires if locked then n > 0 && t.FirstLock(from, n - 1) else t.AllFail(from, n)
    ensures Explained(t, from, n, locked)
  {
    MadeExplains(t, from, n, locked);
    if locked {
      StepMeant(t, from, n - 1);
      EndsFinished(t, t.PollsFrom(from, n - 1), t.AttemptFrom(from, n));
    }
  }

  lemma {:induction false} MadeExplains(t: Trail, from: nat, n: nat, locked: bool)
    requires t.Meant()
    requires if locked then n > 0 && t.FirstLock(from, n - 1) else t.AllFail(from, n)
    ensures t.Explains(from, t.Made(from, n), locked, t.AttemptFrom(from, n)) && |t.Made(from, n)| == n
    ensures forall k :: 0 <= k < n ==> (t.Made(from, n)[k].gi, t.Made(from, n)[k].multi) == Planned(k)
  {
    MadeAt(t, from, n);
    forall k | 0 <= k < n
      ensures var at, next := t.PollsFrom(from, k), t.AttemptFrom(from, k + 1);
        if locked && k + 1 == n then t.LocksTo(at, next) else t.FailsTo(at, next)
    {
      StepMeant(t, from, k);
    }
  }

  lemma StepMeant(t: Trail, from: nat, k: nat)
    requires t.Meant()
    ensures var at, next := t.PollsFrom(from, k), t.AttemptFrom(from, k + 1);
      if t.locks(at) then t.LocksTo(at, next) else t.FailsTo(at, next)
  {
    assert t.AttemptFrom(from, k + 1) == t.end(t.PollsFrom(from, k));
  }

  lemma {:induction false} MadeAt(t: Trail, from: nat, n: nat)
    ensures |t.Made(from, n)| == n
    ensures forall k :: 0 <= k < n ==> t.Made(from, n)[k] == Attempt(Planned(k).0, Planned(k).1, t.PollsFrom(from, k))
  {
    if n > 0 {
      MadeAt(t, from, n - 1);
    }
  }

  /** The first n attempts by the status bits: each failed for want of a hit, but
      the last, if `locked`, whose own last read showed the end of the
      detection. */
  ghost predicate Explained(t: Trail, from: nat, n: nat, locked: bool) {
    var made, end := t.Made(from, n), t.AttemptFrom(from, n);
    t.Explains(from, made, locked, end) && (locked && n > 0 ==> end > 0 && t.finished(end - 1))
  }

  lemma EndsFinished(t: Trail, at: nat, end: nat)
    requires t.LocksTo(at, end)
    ensures end > 0 && t.finished(end - 1)
  {
  }

  /** No attempt does both, and it ends in one place. */
  lemma LocksOrFails(t: Trail, at: nat, end: nat, end': nat)
    ensures t.LocksTo(at, end) ==> !t.FailsTo(at, end')
    ensures t.LocksTo(at, end) && t.LocksTo(at, end') ==> end == end'
  {
    if t.LocksTo(at, end) {
      var i: nat, j: nat :| t.LocksAfter(at, i, j, end);
      forall i': nat
        ensures !t.NeverFinishes(at, i', end')
      {
      }
      if t.LocksTo(at, end') {
        var i': nat, j': nat :| t.LocksAfter(at, i', j', end');
        assert i == i' && j == j';
      }
    }
  }

  lemma MulStep(a: nat, n: nat)
    ensures a * (n + 1) == a * n + a
  {
  }

  /** The guard-interval and carrier-mode fields of registers 0x0C and 0x18. */
  function GuardOf(t: bv8): bv8 { t & GI_MASK }

  function TopBit(t: bv8): bool { t & 0x80 != 0 }

  function ModeOf(t: bv8): bool { t & 0x01 == 0x01 }

  function WithGuard(t: bv8, gi: bv8): (t': bv8)
    ensures gi <= GI_MASK ==> GuardOf(t') == gi
  {
    (t & 0xFC) | gi
  }

  function WithMode(t: bv8, multi: bool): (t': bv8)
    ensures ModeOf(t') == multi
  {
    (t & 0xFE) | (if multi then 0x01 else 0x00)
  }

  /** The detection register, and the parameters in a read of it. */
  function DetectRegister(p: Product): nat { if p == Lgs8g75 then 0x1F else 0xA2 }

  function Detected(p: Product, answer: bv8): bv8 { if p == Lgs8g75 then answer & 0x3F else answer }

  lemma DetectedFits(p: Product, answer: bv8)
    ensures p == Lgs8g75 ==> Detected(p, answer) & 0x3F == Detected(p, answer)
  {
  }

  /** The LGS8913 needs another code for the detected interleaver. */
  function Relaid(detected: bv8): bv8 { (detected & 0x9F) | (if detected & 0x20 == 0x00 then 0x60 else 0x40) }

  /** Bits 1 to 6 of register 0x19. */
  function SixBits(t: bv8): bv8 { (t >> 1) & 0x3F }

  lemma SixBitsKept(t: bv8, detected: bv8)
    requires detected & 0x3F == detected
    ensures SixBits((t & 0x81) | (detected << 1)) == detected
  {
  }

  /** The bits those functions look at and leave alone. */
  lemma FieldBits(t: bv8, gi: bv8, multi: bool)
    requires gi <= 3
    ensures GuardOf(t) == t % 4 && ModeOf(t) == (t % 2 == 1) && TopBit(t) == (t >= 128)
    ensures WithGuard(t, gi) % 4 == gi && WithGuard(t, gi) / 4 == t / 4
    ensures WithMode(t, multi) % 2 == (if multi then 1 else 0) && WithMode(t, multi) / 2 == t / 2
    ensures SixBits(t) == t / 2 % 64
  {
  }

  lemma DetectedBits(p: Product, answer: bv8)
    ensures p == Lgs8g75 ==> DetectRegister(p) == 0x1F && Detected(p, answer) == answer % 64
    ensures p != Lgs8g75 ==> DetectRegister(p) == 0xA2 && Detected(p, answer) == answer
  {
  }

  /** Bits 5 and 6 are set anew, both where bit 5 was clear, bit 6 alone where
      it was set; the others stay. */
  lemma RelaidBits(t: bv8)
    ensures Relaid(t) % 32 == t % 32 && Relaid(t) / 128 == t / 128
    ensures Relaid(t) / 32 % 4 == if t / 32 % 2 == 0 then 3 else 2
  {
  }

  lemma GuardCodes()
    ensures (Gi420.Code(), Gi595.Code(), Gi945.Code()) == (0x00, 0x01, 0x02)
    ensures (Gi420.Length(), Gi595.Length(), Gi945.Length()) == (420, 595, 945)
    ensures ModeReads(Lgs8g75) == 1 && ModeReads(Lgs8913) == 4 && ProgramReads(Lgs8g75) == 2
    ensures forall p :: p != Lgs8g75 ==> ProgramReads(p) == 0 && (p != Lgs8913 ==> ModeReads(p) == 2)
  {
  }

  lemma PlanOfRound(i: nat)
    ensures Planned(5 * i) == (Gi945, false) && Planned(5 * i + 1) == (Gi945, true)
    ensures Planned(5 * i + 2) == (Gi420, false) && Planned(5 * i + 3) == (Gi420, true)
    ensures Planned(5 * i + 4) == (Gi595, true)
  {
  }

  class Demodulator {
    const prod: Product
    const answer: Answers
    var readCount: nat
    var regs: map<nat, bv8>
    var slept: nat
    var currGi: nat
    ghost var attempts: seq<Attempt>

    constructor (prod: Product, answer: Answers)
      ensures this.prod == prod && this.answer == answer && attempts == [] && slept == 0
    {
      this.prod, this.answer := prod, answer;
      readCount, regs, slept, currGi, attempts := 0, map[], 0, 0, [];
    }

    method WriteReg(reg: nat, value: bv8)
      modifies this`regs
      ensures regs == old(regs)[reg := value]
    {
      regs := regs[reg := value];
    }

    method ReadReg(reg: nat) returns (t: bv8)
      modifies this`readCount
      ensures t == answer(old(readCount), reg) && readCount == old(readCount) + 1
    {
      t := answer(readCount, reg);
      readCount := readCount + 1;
    }

    method Sleep(ms: nat)
      modifies this`slept
      ensures slept == old(slept) + ms
    {
      slept := slept + ms;
    }

    /** lgs8gxx_soft_reset */
    method SoftReset()
      modifies this`regs, this`slept
      ensures regs == old(regs)[0x02 := 0x01] && slept == old(slept) + 101
    {
      WriteReg(0x02, 0x00);
      Sleep(1);
      WriteReg(0x02, 0x01);
      Sleep(100);
    }

    /** wait_reg_mask: stops at the first hit; sleeps after each miss. */
    method WaitRegMask(poll: Poll) returns (ret: int)
      modifies this`readCount, this`slept
      ensures ret == if Hits(answer, old(readCount), poll) then 0 else 1
      ensures readCount == AfterPoll(answer, old(readCount), poll)
      ensures slept == old(slept) + poll.delay * Misses(answer, old(readCount), poll, 0)
    {
      var i := 0;
      while i < poll.tries
        invariant 0 <= i <= poll.tries && readCount == old(readCount) + i
        invariant slept == old(slept) + poll.delay * i
        invariant Misses(answer, old(readCount), poll, 0) == i + Misses(answer, readCount, poll, i)
      {
        var t := ReadReg(poll.reg);
        if poll.hit(t) {
          return 0;
        }
        Sleep(poll.delay);
        MulStep(poll.delay, i);
        i := i + 1;
      }
      return 1;
    }

    method Program(gi: Guard, multi: bool)
      modifies this`readCount, this`regs
      ensures Programmed(gi, multi) && readCount == old(readCount) + ProgramReads(prod)
    {
      if prod == Lgs8g75 {
        var t1 := ReadReg(0x0C);
        var t2 := ReadReg(0x18);
        WriteReg(0x0C, WithGuard(t1, gi.Code()));
        WriteReg(0x18, WithMode(t2, multi));
      } else {
        WriteReg(0x04, gi.Code());
      }
    }

    /** lgs8gxx_autolock_gi: program, reset, poll twice.  It locks exactly when
        both polls hit, makes no other reads, and what it programmed stays in
        the registers. */
    method AutolockGi(gi: Guard, multi: bool) returns (locked: bool)
      modifies this`readCount, this`regs, this`slept, this`attempts
      ensures var at := old(readCount) + ProgramReads(prod);
        attempts == old(attempts) + [Attempt(gi, multi, at)] &&
        locked == Locks(prod, answer, at) && readCount == End(prod, answer, at)
      ensures slept <= old(slept) + ATTEMPT_MS
      ensures Programmed(gi, multi)
    {
      Program(gi, multi);
      SoftReset();
      attempts := attempts + [Attempt(gi, multi, readCount)];
      locked := PollBoth();
    }

    /** The second poll only after the first hit. */
    method PollBoth() returns (locked: bool)
      modifies this`readCount, this`slept
      ensures locked == Locks(prod, answer, old(readCount)) && readCount == End(prod, answer, old(readCount))
      ensures slept <= old(slept) + 2150
    {
      locked := WaitCaLock();
      if locked {
        locked := IsAutodetectFinished();
      }
    }

    /** The registers ask for this guard interval and, where there is a choice,
        this carrier mode. */
    predicate Programmed(gi: Guard, multi: bool)
      reads this
    {
      if prod == Lgs8g75 then
        0x0C in regs && GuardOf(regs[0x0C]) == gi.Code() && 0x18 in regs && ModeOf(regs[0x18]) == multi
      else 0x04 in regs && regs[0x04] == gi.Code()
    }

    /** lgs8gxx_wait_ca_lock */
    method WaitCaLock() returns (locked: bool)
      modifies this`readCount, this`slept
      ensures locked == Hits(answer, old(readCount), CaPoll(prod))
      ensures readCount == AfterPoll(answer, old(readCount), CaPoll(prod))
      ensures slept <= old(slept) + (if locked then 1950 else 2000)
    {
      var poll := if prod == Lgs8g75 then Poll(0x13, MaskedIs(0x80, 0x80), 50, 40)
      else Poll(0x4B, MaskedIs(0xC0, 0xC0), 50, 40);
      var ret := WaitRegMask(poll);
      locked := ret == 0;
    }

    /** lgs8gxx_is_autodetect_finished */
    method IsAutodetectFinished() returns (finished: bool)
      modifies this`readCount, this`slept
      ensures finished == Hits(answer, old(readCount), FinishedPoll(prod))
      ensures readCount == AfterPoll(answer, old(readCount), FinishedPoll(prod))
      ensures slept <= old(slept) + 200
    {
      var poll := if prod == Lgs8g75 then Poll(0x1F, MaskedIs(0xC0, 0x80), 10, 20)
      else Poll(0xA4, MaskedIs(0x03, 0x01), 10, 20);
      var ret := WaitRegMask(poll);
      finished := ret == 0;
    }

    /** The register bit that has the demodulator detect for itself. */
    predicate Detecting(on: bool)
      reads this
    {
      if prod == Lgs8g75 then 0x0C in regs && TopBit(regs[0x0C]) == on else 0x7E in regs && ModeOf(regs[0x7E]) == on
    }

    /** lgs8gxx_set_mode_auto */
    method SetModeAuto()
      modifies this`readCount, this`regs
      ensures readCount == old(readCount) + ModeReads(prod) && Detecting(true)
    {
      if prod == Lgs8913 {
        WriteReg(0xC6, 0x01);
      }
      if prod == Lgs8g75 {
        var t := ReadReg(0x0C);
        t := t & 0xFB;
        WriteReg(0x0C, t | 0x80);
        WriteReg(0x39, 0x00);
        WriteReg(0x3D, 0x04);
      } else {
        var t := ReadReg(0x7E);
        WriteReg(0x7E, t | 0x01);
        t := ReadReg(0xC5);
        WriteReg(0xC5, t & 0xE0);
      }
      if prod == Lgs8913 {
        WriteReg(0xC1, 0x03);
        var t := ReadReg(0x7C);
        WriteReg(0x7C, (t & 0x8C) | 0x03);
        t := ReadReg(0xC3);
        WriteReg(0xC3, (t & 0xEF) | 0x10);
      }
      if prod == Lgs8g52 {
        WriteReg(0xD9, 0x40);
      }
    }

    /** The nested loops of lgs8gxx_auto_detect: `made` attempts. */
    method Search(ghost trail: Trail) returns (locked: bool, gi: Guard, ghost made: nat)
      requires trail.Describes(prod, answer)
      modifies this`readCount, this`regs, this`slept, this`attempts
      ensures made <= 10
      ensures locked ==> Found(trail, made, Start(old(readCount), old(attempts), old(slept)), gi)
      ensures !locked ==> made == 10 && Searched(trail, made, Start(old(readCount), old(attempts), old(slept)))
    {
      locked, gi, made := false, Gi945, 0;
      var i := 0;
      while i < 2
        invariant 0 <= i <= 2 && !locked && made == 5 * i
        invariant Searched(trail, made, Start(old(readCount), old(attempts), old(slept)))
      {
        locked, gi, made := Round(trail, i, made, Start(old(readCount), old(attempts), old(slept)));
        if locked {
          return;
        }
        i := i + 1;
      }
    }

    /** The search, by the status bits as well. */
    method SearchExplained(ghost trail: Trail) returns (locked: bool, gi: Guard, ghost made: nat)
      requires trail.Describes(prod, answer) && trail.Shows(prod, answer)
      modifies this`readCount, this`regs, this`slept, this`attempts
      ensures made <= 10
      ensures locked ==> Found(trail, made, Start(old(readCount), old(attempts), old(slept)), gi)
      ensures !locked ==> made == 10 && Searched(trail, made, Start(old(readCount), old(attempts), old(slept)))
      ensures Explained(trail, old(readCount), made, locked)
    {
      locked, gi, made := Search(trail);
      TrailMeant(prod, answer, trail);
      MadeExplained(trail, old(readCount), made, locked);
    }

    /** The outer loop's body: the five attempts of one round. */
    method Round(ghost trail: Trail, i: nat, ghost done: nat, ghost start: Start)
      returns (locked: bool, gi: Guard, ghost made: nat)
      requires trail.Describes(prod, answer) && i < 2 && done == 5 * i && Searched(trail, done, start)
      modifies this`readCount, this`regs, this`slept, this`attempts
      ensures made <= done + 5
      ensures locked ==> Found(trail, made, start, gi)
      ensures !locked ==> made == done + 5 && Searched(trail, made, start)
    {
      PlanOfRound(i);
      gi := Gi945;
      locked, made := TryBothModes(trail, gi, done, start);
      if locked {
        return;
      }
      gi := Gi420;
      locked, made := TryBothModes(trail, gi, made, start);
      if locked {
        return;
      }
      gi := Gi595;
      locked, made := Try(trail, gi, true, made, start);
    }

    /** The first k attempts of the plan, and no others, were made from read
        `from` on, and all failed. */
    ghost predicate Searched(trail: Trail, k: nat, start: Start)
      reads this
    {
      attempts == start.attempts + trail.Made(start.read, k) && readCount == trail.AttemptFrom(start.read, k) &&
      trail.AllFail(start.read, k) && slept <= start.slept + ATTEMPT_MS * k
    }

    /** The first k attempts of the plan, and no others, were made, and the last
        of them is the first to lock. */
    ghost predicate Found(trail: Trail, k: nat, start: Start, gi: Guard)
      reads this
    {
      attempts == start.attempts + trail.Made(start.read, k) && readCount == trail.AttemptFrom(start.read, k) &&
      k > 0 && trail.FirstLock(start.read, k - 1) && slept <= start.slept + ATTEMPT_MS * k &&
      gi == Planned(k - 1).0 && Programmed(gi, Planned(k - 1).1)
    }

    /** An inner loop: the same guard interval in both carrier modes. */
    method TryBothModes(ghost trail: Trail, gi: Guard, ghost done: nat, ghost start: Start)
      returns (locked: bool, ghost made: nat)
      requires trail.Describes(prod, answer) && Searched(trail, done, start)
      requires Planned(done) == (gi, false) && Planned(done + 1) == (gi, true)
      modifies this`readCount, this`regs, this`slept, this`attempts
      ensures made <= done + 2
      ensures locked ==> Found(trail, made, start, gi)
      ensures !locked ==> made == done + 2 && Searched(trail, made, start)
    {
      locked, made := false, done;
      var j := 0;
      while j < 2
        invariant 0 <= j <= 2 && !locked && made == done + j && Searched(trail, made, start)
      {
        locked, made := Try(trail, gi, j != 0, made, start);
        if locked {
          return;
        }
        j := j + 1;
      }
    }

    /** One planned attempt after failed ones. */
    method Try(ghost trail: Trail, gi: Guard, multi: bool, ghost done: nat, ghost start: Start)
      returns (locked: bool, ghost made: nat)
      requires trail.Describes(prod, answer) && Searched(trail, done, start) && (gi, multi) == Planned(done)
      modifies this`readCount, this`regs, this`slept, this`attempts
      ensures made == done + 1
      ensures locked ==> Found(trail, made, start, gi)
      ensures !locked ==> Searched(trail, made, start)
    {
      made := done + 1;
      ghost var at := trail.PollsFrom(start.read, done);
      locked := Attempted(trail, gi, multi);
      assert trail.Made(start.read, made) == trail.Made(start.read, done) + [Attempt(gi, multi, at)];
    }

    /** One attempt, in the trail's words. */
    method Attempted(ghost trail: Trail, gi: Guard, multi: bool) returns (locked: bool)
      requires trail.Describes(prod, answer)
      modifies this`readCount, this`regs, this`slept, this`attempts
      ensures var at := old(readCount) + trail.programReads;
        attempts == old(attempts) + [Attempt(gi, multi, at)] && locked == trail.locks(at) && readCount == trail.end(at)
      ensures slept <= old(slept) + ATTEMPT_MS
      ensures Programmed(gi, multi)
    {
      locked := AutolockGi(gi, multi);
    }

    method ReadDetected() returns (detected: bv8)
      modifies this`readCount
      ensures detected == Detected(prod, answer(old(readCount), DetectRegister(prod)))
      ensures readCount == old(readCount) + 1
    {
      if prod != Lgs8g75 {
        detected := ReadReg(0xA2);
      } else {
        var t := ReadReg(0x1F);
        detected := t & 0x3F;
      }
    }

    /** What lgs8gxx_auto_detect does before its loops. */
    method Prepare()
      modifies this`readCount, this`regs
      ensures readCount == old(readCount) + ModeReads(prod)
    {
      SetModeAuto();
      if prod == Lgs8g75 {
        WriteReg(0x67, 0xAA);
        WriteReg(0x6E, 0x3F);
      } else {
        WriteReg(0x03, 0x00);
      }
    }

    /** All of it but the read at the end. */
    method PreparedSearch(ghost trail: Trail) returns (locked: bool, gi: Guard, ghost made: nat)
      requires trail.Describes(prod, answer) && trail.Shows(prod, answer)
      modifies this`readCount, this`regs, this`slept, this`attempts
      ensures made <= 10 && slept - old(slept) <= 22510
      ensures var from := old(readCount) + ModeReads(prod);
        attempts == old(attempts) + trail.Made(from, made) && readCount == trail.AttemptFrom(from, made) &&
        if locked then
          made > 0 && trail.FirstLock(from, made - 1) &&
          gi == Planned(made - 1).0 && Programmed(gi, Planned(made - 1).1)
        else made == 10 && trail.AllFail(from, made)
      ensures Explained(trail, old(readCount) + ModeReads(prod), made, locked)
    {
      Prepare();
      locked, gi, made := SearchExplained(trail);
    }

    /** lgs8gxx_auto_detect: makes the planned attempts one after the other up
        to the first that locks and none after it, reports that one's guard
        interval, leaves it programmed, and then reads the detected parameters;
        -1 exactly when all ten fail; never sleeps longer than ten full
        attempts. */
    method AutoDetect(detected0: bv8, gi0: Guard, ghost trail: Trail)
      returns (err: int, detected: bv8, gi: Guard, ghost made: nat)
      requires trail.Describes(prod, answer) && trail.Shows(prod, answer)
      modifies this`readCount, this`regs, this`slept, this`attempts
      ensures made <= 10 && slept - old(slept) <= 22510 && (err == 0 || err == -1)
      ensures var from := old(readCount) + ModeReads(prod);
        attempts == old(attempts) + trail.Made(from, made) &&
        if err == 0 then
          made > 0 && trail.FirstLock(from, made - 1) &&
          gi == Planned(made - 1).0 && Programmed(gi, Planned(made - 1).1) &&
          readCount == trail.AttemptFrom(from, made) + 1 &&
          detected == Detected(prod, answer(readCount - 1, DetectRegister(prod)))
        else
          made == 10 && trail.AllFail(from, made) && readCount == trail.AttemptFrom(from, made) &&
          gi == gi0 && detected == detected0
      ensures Explained(trail, old(readCount) + ModeReads(prod), made, err == 0)
    {
      detected, gi := detected0, gi0;
      var locked, found;
      locked, found, made := PreparedSearch(trail);
      if locked {
        detected := ReadDetected();
        gi := found;
      }
      err := if locked then 0 else -1;
    }

    /** lgs8gxx_set_mode_manual leaves the detected parameters alone. */
    method SetModeManual(ghost detected: bv8)
      requires Applied(detected)
      modifies this`readCount, this`regs, this`slept
      ensures slept == old(slept) + 101 && Applied(detected) && Detecting(false)
    {
      if prod == Lgs8g75 {
        SetModeManual75(detected);
        SoftReset();
        return;
      }
      WriteReg(0x7E, 0x00);
      if prod == Lgs8913 {
        WriteReg(0xC1, 0x00);
      }
      var t := ReadReg(0xC5);
      WriteReg(0xC5, (t & 0xE0) | 0x06);
      SoftReset();
    }

    method SetModeManual75(ghost detected: bv8)
      requires prod == Lgs8g75 && Applied(detected)
      modifies this`readCount, this`regs
      ensures Applied(detected) && Detecting(false)
    {
      var t := ReadReg(0x0C);
      WriteReg(0x0C, t & 0x7F);
      t := ReadReg(0x0C);
      var t2 := ReadReg(0x19);
      if t & 0x03 == 0x01 && t2 & 0x01 != 0 {
        WriteReg(0x6E, 0x05);
        WriteReg(0x39, 0x02);
        WriteReg(0x39, 0x03);
        WriteReg(0x3D, 0x05);
        WriteReg(0x3E, 0x28);
        WriteReg(0x53, 0x80);
      } else {
        WriteReg(0x6E, 0x3F);
        WriteReg(0x39, 0x00);
        WriteReg(0x3D, 0x04);
      }
    }

    /** The detected parameters are in the product's registers. */
    predicate Applied(detected: bv8)
      reads this
    {
      match prod
      case Lgs8g75 => 0x19 in regs && SixBits(regs[0x19]) == detected
      case Lgs8913 => 0x7D in regs && regs[0x7D] == Relaid(detected) && 0xC0 in regs && regs[0xC0] == Relaid(detected)
      case _ => 0x7D in regs && regs[0x7D] == detected
    }

    /** The writes of lgs8gxx_auto_lock. */
    method Apply(detected: bv8)
      requires prod == Lgs8g75 ==> detected & 0x3F == detected
      modifies this`readCount, this`regs
      ensures Applied(detected)
    {
      var param := detected;
      if prod == Lgs8913 {
        var interleave: bv8 := if param & 0x20 == 0x00 then 0x60 else 0x40;
        param := (param & 0x9F) | interleave;
      }
      if prod == Lgs8g75 {
        var t := ReadReg(0x19);
        SixBitsKept(t, param);
        WriteReg(0x19, (t & 0x81) | (param << 1));
      } else {
        WriteReg(0x7D, param);
        if prod == Lgs8913 {
          WriteReg(0xC0, param);
        }
      }
    }

    /** The detected parameters applied, then manual mode. */
    method Settle(detected: bv8)
      requires prod == Lgs8g75 ==> detected & 0x3F == detected
      modifies this`readCount, this`regs, this`slept
      ensures slept == old(slept) + 202 && Applied(detected) && Detecting(false)
    {
      Apply(detected);
      SoftReset();
      SetModeManual(detected);
    }

    /** lgs8gxx_auto_lock: the guard interval recorded is the one of the first
        attempt that locked, and the parameters applied are those in the read
        that follows its polls; without a lock they are 945 and zero. */
    method AutoLock(ghost trail: Trail) returns (ghost made: nat)
      requires trail.Describes(prod, answer) && trail.Shows(prod, answer)
      modifies this
      ensures made <= 10 && slept - old(slept) <= 22510 + 202 && Detecting(false)
      ensures var from := old(readCount) + ModeReads(prod);
        attempts == old(attempts) + trail.Made(from, made) &&
        ((made > 0 && trail.FirstLock(from, made - 1) && currGi == Planned(made - 1).0.Length() &&
          Applied(Detected(prod, answer(trail.AttemptFrom(from, made), DetectRegister(prod))))) ||
         (made == 10 && trail.AllFail(from, made) && currGi == 945 && Applied(0)))
    {
      var err, detected, gi;
      err, detected, gi, made := AutoDetect(0x00, Gi945, trail);
      if err == 0 {
        DetectedFits(prod, answer(readCount - 1, DetectRegister(prod)));
      }
      Settle(detected);
      currGi := gi.Length();
    }
  }
}
