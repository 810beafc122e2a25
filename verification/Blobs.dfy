/** The blob store under every run of concurrent downloaders that may stop at any step: each step below is
    one file operation of a downloader. A digest stands for the path of its blob, its part file and its lock;
    the hash function is a parameter. */
module Blobs {
  import opened Bytes

  type Hash = seq<byte> -> nat
  type File = Option<seq<byte>>

  // ----- One downloader -----

  /** Where a downloader stands, in the order in which it goes. */
  datatype Pc = Waiting | Checking | Clearing | Sizing | Judging | Asking | Opening(append: bool)
    | Streaming | Measuring
              | Verifying | Promoting | Renaming | Done | Failed

  /** `kept` is what the part file held when the stream began, `got` what the stream has brought. */
  datatype Proc = Proc(digest: nat, size: nat, pc: Pc, offset: nat, kept: seq<byte>, got: seq<byte>)

  /** What the registry does next: it answers with the whole layer or with the rest, sends a chunk, ends. */
  datatype Answer = Whole | Rest | Chunk(bytes: seq<byte>) | End

  /** A downloader with the blob and the part file of its digest. */
  datatype Cell = Cell(me: Proc, blob: File, part: File)

  predicate Active(pc: Pc) { !pc.Waiting? && !pc.Done? && !pc.Failed? }

  function BytesOf(f: File): seq<byte> { if f.Some? then f.value else [] }

  predicate Fits(me: Proc, answer: Answer) {
    match me.pc
    case Asking => answer.Whole? || (answer.Rest? && me.offset > 0)
    case Streaming => answer.Chunk? || answer.End?
    case Done => false
    case Failed => false
    case _ => true
  }

  function At(c: Cell, pc: Pc): Cell { c.(me := c.me.(pc := pc)) }

  function AtOffset(c: Cell, offset: nat, pc: Pc): Cell { c.(me := c.me.(pc := pc, offset := offset)) }

  /** One operation. */
  function Act(hash: Hash, c: Cell, answer: Answer): Cell
    requires Fits(c.me, answer)
  {
    var me := c.me;
    match me.pc
    case Waiting => At(c, Checking)
    case Checking => if c.blob.Some? && hash(c.blob.value) == me.digest then At(c, Done)
      else At(c.(blob := None), Clearing)
    case Clearing => At(c.(blob := None), Sizing)
    case Sizing =>
      if |BytesOf(c.part)| > me.size then AtOffset(c.(part := None), 0, Judging)
        else AtOffset(c, |BytesOf(c.part)|, Judging)
    case Judging =>
      if me.offset != me.size then At(c, Asking)
      else if c.part.None? then At(c, Failed)
      else if hash(c.part.value) == me.digest then At(c, Promoting)
      else AtOffset(c.(part := None), 0, Asking)
    case Asking =>
      if answer.Rest? then At(c, Opening(true))
      else AtOffset(if me.offset > 0 then c.(part := None) else c, 0, Opening(false))
    case Opening(append) =>
      var kept := if append then BytesOf(c.part) else [];
      c.(part := Some(kept), me := me.(pc := Streaming, kept := kept, got := []))
    case Streaming =>
      if answer.Chunk? then c.(part := Some(BytesOf(c.part) + answer.bytes), me := me.(got := me.got + answer.bytes))
      else At(c, Measuring)
    case Measuring => if |BytesOf(c.part)| != me.size then At(c.(part := None), Failed) else At(c, Verifying)
    case Verifying => if hash(BytesOf(c.part)) != me.digest then At(c.(part := None), Failed) else At(c, Promoting)
    case Promoting => At(c.(blob := None), Renaming)
    case Renaming => if c.part.Some? then At(c.(blob := c.part, part := None), Done) else At(c, Failed)
    case Done => c
    case Failed => c
  }

  predicate Transferring(pc: Pc) { pc.Streaming? || pc.Measuring? || pc.Verifying? }

  predicate Publishing(pc: Pc) { pc.Promoting? || pc.Renaming? }

  predicate Matches(hash: Hash, f: File, d: nat) { f.Some? && hash(f.value) == d }

  /** What a downloader may rely on where it stands. */
  ghost predicate Sane(hash: Hash, c: Cell) {
    var me := c.me;
    && (Active(me.pc) && !me.pc.Checking? ==> c.blob == None)
    && (me.pc.Judging? || me.pc.Asking? ==> me.offset == |BytesOf(c.part)| <= me.size)
    && (me.pc.Opening? && me.pc.append ==> me.offset == |BytesOf(c.part)| && 0 < me.offset <= me.size)
    && (Transferring(me.pc) ==> c.part == Some(me.kept + me.got))
    && (me.pc.Verifying? ==> |BytesOf(c.part)| == me.size)
    && (Publishing(me.pc) ==> Matches(hash, c.part, me.digest) && |BytesOf(c.part)| == me.size)
    && (me.pc.Done? ==> Matches(hash, c.blob, me.digest))
  }

  /** The downloader finds what it relies on at its next place. */
  lemma ActSane(hash: Hash, c: Cell, answer: Answer)
    requires Sane(hash, c) && Fits(c.me, answer)
    ensures Sane(hash, Act(hash, c, answer))
    ensures Act(hash, c, answer).me.digest == c.me.digest && Act(hash, c, answer).me.size == c.me.size
    ensures !Act(hash, c, answer).me.pc.Waiting?
  {
    if c.me.pc.Streaming? && answer.Chunk? {
      assert (c.me.kept + c.me.got) + answer.bytes == c.me.kept + (c.me.got + answer.bytes);
    } else if c.me.pc.Opening? {
      var kept := Act(hash, c, answer).me.kept;
      assert kept + [] == kept;
    }
  }

  lemma IdleSane(hash: Hash, c: Cell)
    requires c.me.pc.Waiting? || c.me.pc.Failed?
    ensures Sane(hash, c)
  {
  }

  /** A matching blob is never taken away or replaced, and only matching ones are put there. */
  lemma ActBlob(hash: Hash, c: Cell, answer: Answer)
    requires Sane(hash, c) && Fits(c.me, answer)
    ensures Matches(hash, c.blob, c.me.digest) ==> Act(hash, c, answer).blob == c.blob
    ensures Act(hash, c, answer).blob.Some? ==>
            Matches(hash, Act(hash, c, answer).blob, c.me.digest) || Act(hash, c, answer).blob == c.blob
  {
  }

  // ----- The store -----

  datatype Store = Store(blobs: map<nat, seq<byte>>, parts: map<nat, seq<byte>>, locks: map<nat, nat>,
                         procs: map<nat, Proc>)

  const EMPTY: Store := Store(map[], map[], map[], map[])

  /** A new downloader, one operation of a downloader, or its end at any point by an error or a crash. */
  datatype Step = Begin(p: nat, digest: nat, size: nat) | Go(p: nat, answer: Answer) | Stop(p: nat)

  function Slot(m: map<nat, seq<byte>>, d: nat): File { if d in m then Some(m[d]) else None }

  function WithSlot(m: map<nat, seq<byte>>, d: nat, f: File): map<nat, seq<byte>> {
    if f.Some? then m[d := f.value] else m - {d}
  }

  function CellOf(s: Store, p: nat): Cell
    requires p in s.procs
  {
    Cell(s.procs[p], Slot(s.blobs, s.procs[p].digest), Slot(s.parts, s.procs[p].digest))
  }

  predicate Enabled(s: Store, a: Step) {
    match a
    case Begin(p, _, _) => p !in s.procs
    case Stop(p) => p in s.procs && !s.procs[p].pc.Done? && !s.procs[p].pc.Failed?
    case Go(p, answer) =>
      && p in s.procs && Fits(s.procs[p], answer)
      && (s.procs[p].pc.Waiting? ==> s.procs[p].digest !in s.locks)
  }

  /** The lock is taken with the first operation and given back when the downloader leaves. */
  function Put(s: Store, p: nat, c: Cell): Store {
    var d := c.me.digest;
    Store(WithSlot(s.blobs, d, c.blob), WithSlot(s.parts, d, c.part),
          if Active(c.me.pc) then s.locks[d := p] else s.locks - {d}, s.procs[p := c.me])
  }

  function Next(hash: Hash, s: Store, a: Step): Store
    requires Enabled(s, a)
  {
    match a
    case Begin(p, d, size) => s.(procs := s.procs[p := Proc(d, size, Waiting, 0, [], [])])
    case Stop(p) => if s.procs[p].pc.Waiting? then s.(procs := s.procs[p := s.procs[p].(pc := Failed)])
      else Put(s, p, At(CellOf(s, p), Failed))
    case Go(p, answer) => Put(s, p, Act(hash, CellOf(s, p), answer))
  }

  /** A lock is held by exactly the one downloader at work on that digest. */
  ghost predicate LocksSane(s: Store) {
    && (forall d :: d in s.locks ==>
        s.locks[d] in s.procs && s.procs[s.locks[d]].digest == d && Active(s.procs[s.locks[d]].pc))
    && (forall p :: p in s.procs && Active(s.procs[p].pc) ==>
        s.procs[p].digest in s.locks && s.locks[s.procs[p].digest] == p)
  }

  ghost predicate Inv(hash: Hash, s: Store) {
    LocksSane(s) && forall p :: p in s.procs ==> Sane(hash, CellOf(s, p))
  }

  /** Every blob hashes to its digest. */
  ghost predicate Clean(hash: Hash, s: Store) {
    forall d :: d in s.blobs ==> hash(s.blobs[d]) == d
  }

  // ----- Every step keeps it -----

  /** The one who acts holds the lock or finds it free. */
  ghost predicate Entitled(s: Store, p: nat) {
    p in s.procs && (s.procs[p].digest in s.locks ==> s.locks[s.procs[p].digest] == p)
  }

  lemma PutLocks(s: Store, p: nat, c: Cell)
    requires LocksSane(s) && Entitled(s, p) && c.me.digest == s.procs[p].digest
    ensures LocksSane(Put(s, p, c))
  {
  }

  /** What another downloader sees. */
  lemma PutOther(s: Store, p: nat, c: Cell, q: nat)
    requires p in s.procs && q in s.procs && q != p && c.me.digest == s.procs[p].digest
    ensures CellOf(Put(s, p, c), q) ==
            if s.procs[q].digest == c.me.digest then Cell(s.procs[q], c.blob, c.part) else CellOf(s, q)
  {
  }

  lemma PutSelf(s: Store, p: nat, c: Cell)
    ensures CellOf(Put(s, p, c), p) == c
  {
  }

  /** What another downloader relies on is left alone. */
  lemma PutKeepsOther(hash: Hash, s: Store, p: nat, c: Cell, q: nat)
    requires Inv(hash, s) && Entitled(s, p) && q in s.procs && q != p && c.me.digest == s.procs[p].digest
    requires Matches(hash, CellOf(s, p).blob, c.me.digest) ==> c.blob == CellOf(s, p).blob
    ensures Sane(hash, CellOf(Put(s, p, c), q))
  {
    hide Put;
    PutOther(s, p, c, q);
    assert Sane(hash, CellOf(s, q));
    if s.procs[q].digest == c.me.digest { assert !Active(s.procs[q].pc); }
  }

  lemma PutKeeps(hash: Hash, s: Store, p: nat, c: Cell)
    requires Inv(hash, s) && Entitled(s, p) && c.me.digest == s.procs[p].digest && Sane(hash, c)
    requires Matches(hash, CellOf(s, p).blob, c.me.digest) ==> c.blob == CellOf(s, p).blob
    ensures Inv(hash, Put(s, p, c))
  {
    hide Sane, LocksSane, CellOf;
    PutLocks(s, p, c);
    var t := Put(s, p, c);
    forall q | q in t.procs ensures Sane(hash, CellOf(t, q)) {
      if q == p { PutSelf(s, p, c); } else { PutKeepsOther(hash, s, p, c, q); }
    }
  }

  /** What a step puts back: the stepping downloader's new cell. */
  function NewCell(hash: Hash, s: Store, a: Step): Cell
    requires Enabled(s, a) && !a.Begin?
  {
    if a.Stop? then At(CellOf(s, a.p), Failed) else Act(hash, CellOf(s, a.p), a.answer)
  }

  lemma NewCellSane(hash: Hash, s: Store, a: Step)
    requires Inv(hash, s) && Enabled(s, a) && !a.Begin?
    ensures var c, d := NewCell(hash, s, a), s.procs[a.p].digest;
            && c.me.digest == d && Sane(hash, c)
            && (Matches(hash, Slot(s.blobs, d), d) ==> c.blob == Slot(s.blobs, d))
            && (c.blob.Some? ==> Matches(hash, c.blob, d) || c.blob == Slot(s.blobs, d))
  {
    hide LocksSane, Act;
    assert Sane(hash, CellOf(s, a.p));
    if a.Go? {
      ActSane(hash, CellOf(s, a.p), a.answer);
      ActBlob(hash, CellOf(s, a.p), a.answer);
    }
  }

  lemma WaitersLeave(hash: Hash, s: Store, a: Step)
    requires Inv(hash, s) && Enabled(s, a) && (a.Begin? || (a.Stop? && s.procs[a.p].pc.Waiting?))
    ensures Inv(hash, Next(hash, s, a)) && Next(hash, s, a).blobs == s.blobs && Next(hash, s, a).parts == s.parts
  {
    hide Sane;
    var t := Next(hash, s, a);
    forall q | q in t.procs ensures Sane(hash, CellOf(t, q)) {
      if q == a.p { IdleSane(hash, CellOf(t, q)); } else { assert CellOf(t, q) == CellOf(s, q); }
    }
  }

  /** Every step keeps the invariant; a matching blob stays, byte for byte; a clean store stays clean. */
  lemma StepKeeps(hash: Hash, s: Store, a: Step, d: nat)
    requires Inv(hash, s) && Enabled(s, a)
    ensures Inv(hash, Next(hash, s, a))
    ensures Matches(hash, Slot(s.blobs, d), d) ==> Slot(Next(hash, s, a).blobs, d) == Slot(s.blobs, d)
    ensures Clean(hash, s) ==> Clean(hash, Next(hash, s, a))
  {
    hide Inv, Sane, Act;
    if a.Begin? || (a.Stop? && s.procs[a.p].pc.Waiting?) {
      WaitersLeave(hash, s, a);
    } else {
      NewCellSane(hash, s, a);
      Allowed(hash, s, a);
      PutKeeps(hash, s, a.p, NewCell(hash, s, a));
    }
  }

  lemma Allowed(hash: Hash, s: Store, a: Step)
    requires Inv(hash, s) && Enabled(s, a) && !a.Begin? && !(a.Stop? && s.procs[a.p].pc.Waiting?)
    ensures Entitled(s, a.p)
  {
  }

  // ----- Whole runs -----

  ghost predicate Possible(hash: Hash, s: Store, steps: seq<Step>)
    decreases |steps|
  {
    steps != [] ==> Enabled(s, steps[0]) && Possible(hash, Next(hash, s, steps[0]), steps[1..])
  }

  function Run(hash: Hash, s: Store, steps: seq<Step>): Store
    requires Possible(hash, s, steps)
    decreases |steps|
  {
    if steps == [] then s else Run(hash, Next(hash, s, steps[0]), steps[1..])
  }

  lemma {:induction false} RunKeeps(hash: Hash, s: Store, steps: seq<Step>, d: nat)
    requires Inv(hash, s) && Possible(hash, s, steps)
    ensures Inv(hash, Run(hash, s, steps))
    ensures Matches(hash, Slot(s.blobs, d), d) ==> Slot(Run(hash, s, steps).blobs, d) == Slot(s.blobs, d)
    ensures Clean(hash, s) ==> Clean(hash, Run(hash, s, steps))
    decreases |steps|
  {
    hide Inv, Enabled, Next, Clean, Slot;
    if steps != [] {
      StepKeeps(hash, s, steps[0], d);
      RunKeeps(hash, Next(hash, s, steps[0]), steps[1..], d);
    }
  }

  /** Over every run from an empty store, with crashes anywhere: a file at a blob's path hashes to its
      digest, and a path that was returned holds a matching blob. */
  lemma {:induction false} RunIsSafe(hash: Hash, steps: seq<Step>, d: nat, p: nat)
    requires Possible(hash, EMPTY, steps)
    ensures var s := Run(hash, EMPTY, steps);
            && (d in s.blobs ==> hash(s.blobs[d]) == d)
            && (p in s.procs && s.procs[p].pc.Done? ==>
                Matches(hash, Slot(s.blobs, s.procs[p].digest), s.procs[p].digest))
  {
    hide Run, Possible;
    RunKeeps(hash, EMPTY, steps, d);
    var s := Run(hash, EMPTY, steps);
    if p in s.procs { assert Sane(hash, CellOf(s, p)); }
  }

  /** A path that was returned keeps its bytes for good, whatever is run after it. */
  lemma {:induction false} ReturnedStays(hash: Hash, s: Store, steps: seq<Step>, p: nat)
    requires Inv(hash, s) && Possible(hash, s, steps) && p in s.procs && s.procs[p].pc.Done?
    ensures var d := s.procs[p].digest;
            Matches(hash, Slot(s.blobs, d), d) && Slot(Run(hash, s, steps).blobs, d) == Slot(s.blobs, d)
  {
    hide Run, Possible;
    assert Sane(hash, CellOf(s, p));
    RunKeeps(hash, s, steps, s.procs[p].digest);
  }

  /** No run lets two downloaders work on one digest at once. */
  lemma {:induction false} RunExcludes(hash: Hash, steps: seq<Step>, p: nat, q: nat)
    requires Possible(hash, EMPTY, steps)
    ensures var s := Run(hash, EMPTY, steps);
            p in s.procs && q in s.procs && p != q && s.procs[p].digest == s.procs[q].digest ==>
            !(Active(s.procs[p].pc) && Active(s.procs[q].pc))
  {
    hide Run, Possible;
    RunKeeps(hash, EMPTY, steps, 0);
  }

  // ----- After a failed verification -----

  /** A part of the wrong size or content is gone when the downloader gives up. */
  lemma MismatchClears(hash: Hash, c: Cell, answer: Answer)
    requires Sane(hash, c) && (c.me.pc.Measuring? || c.me.pc.Verifying?)
    ensures Act(hash, c, answer).me.pc.Failed? <==>
            (c.me.pc.Measuring? && |c.me.kept + c.me.got| != c.me.size)
              || (c.me.pc.Verifying? && hash(c.me.kept + c.me.got) != c.me.digest)
    ensures Act(hash, c, answer).me.pc.Failed? ==>
            Act(hash, c, answer).part == None && Act(hash, c, answer).blob == None
  {
  }

  /** The step opens the part file of the digest. */
  predicate Opens(s: Store, a: Step, d: nat) {
    a.Go? && a.p in s.procs && s.procs[a.p].digest == d && s.procs[a.p].pc.Opening?
  }

  ghost predicate NeverOpened(hash: Hash, s: Store, steps: seq<Step>, d: nat)
    requires Possible(hash, s, steps)
    decreases |steps|
  {
    steps != [] ==> !Opens(s, steps[0], d) && NeverOpened(hash, Next(hash, s, steps[0]), steps[1..], d)
  }

  lemma PartStaysGone(hash: Hash, s: Store, a: Step, d: nat)
    requires Inv(hash, s) && Enabled(s, a) && d !in s.parts && !Opens(s, a, d)
    ensures d !in Next(hash, s, a).parts
  {
    hide LocksSane;
    if !a.Begin? { assert Sane(hash, CellOf(s, a.p)); }
  }

  ghost predicate FromZero(s: Store, q: nat, d: nat) {
    q in s.procs && s.procs[q].digest == d && (s.procs[q].pc.Judging? || s.procs[q].pc.Asking?) ==>
      s.procs[q].offset == 0
  }

  /** Once the part is gone, whoever tries next asks for the layer from its first byte. */
  lemma {:induction false} NextAttemptIsFresh(hash: Hash, s: Store, steps: seq<Step>, d: nat, q: nat)
    requires Inv(hash, s) && Possible(hash, s, steps) && d !in s.parts && NeverOpened(hash, s, steps, d)
    ensures d !in Run(hash, s, steps).parts && FromZero(Run(hash, s, steps), q, d)
    decreases |steps|
  {
    hide Inv, Enabled, Next, Opens, FromZero;
    if steps == [] {
      NoPartNoOffset(hash, s, d, q);
    } else {
      StepKeeps(hash, s, steps[0], d);
      PartStaysGone(hash, s, steps[0], d);
      NextAttemptIsFresh(hash, Next(hash, s, steps[0]), steps[1..], d, q);
    }
  }

  lemma NoPartNoOffset(hash: Hash, s: Store, d: nat, q: nat)
    requires Inv(hash, s) && d !in s.parts
    ensures FromZero(s, q, d)
  {
    if q in s.procs { assert Sane(hash, CellOf(s, q)); }
  }

  // ----- A downloader that is left to itself -----

  ghost predicate Plays(hash: Hash, c: Cell, answers: seq<Answer>)
    decreases |answers|
  {
    answers != [] ==> Fits(c.me, answers[0]) && Plays(hash, Act(hash, c, answers[0]), answers[1..])
  }

  function Played(hash: Hash, c: Cell, answers: seq<Answer>): Cell
    requires Plays(hash, c, answers)
    decreases |answers|
  {
    if answers == [] then c else Played(hash, Act(hash, c, answers[0]), answers[1..])
  }

  function Goes(p: nat, answers: seq<Answer>): seq<Step> {
    seq(|answers|, i requires 0 <= i < |answers| => Go(p, answers[i]))
  }

  /** In the store, with the lock free or its own, it goes the same way as alone. */
  lemma {:induction false} SoloRun(hash: Hash, s: Store, p: nat, answers: seq<Answer>)
    requires Inv(hash, s) && Entitled(s, p) && Plays(hash, CellOf(s, p), answers)
    ensures Possible(hash, s, Goes(p, answers)) && p in Run(hash, s, Goes(p, answers)).procs
    ensures CellOf(Run(hash, s, Goes(p, answers)), p) == Played(hash, CellOf(s, p), answers)
    decreases |answers|
  {
    hide Inv, Act, Sane, Put;
    if answers == [] {
      assert Goes(p, answers) == [];
    } else {
      var a := Go(p, answers[0]);
      SoloStep(hash, s, p, answers[0]);
      StepKeeps(hash, s, a, 0);
      SoloRun(hash, Next(hash, s, a), p, answers[1..]);
      assert Goes(p, answers)[1..] == Goes(p, answers[1..]) && Goes(p, answers)[0] == a;
    }
  }

  lemma SoloStep(hash: Hash, s: Store, p: nat, answer: Answer)
    requires Inv(hash, s) && Entitled(s, p) && Fits(s.procs[p], answer)
    ensures Enabled(s, Go(p, answer))
    ensures var t := Next(hash, s, Go(p, answer));
            p in t.procs && CellOf(t, p) == Act(hash, CellOf(s, p), answer) && Entitled(t, p)
  {
    hide Act;
    assert Sane(hash, CellOf(s, p));
    ActSane(hash, CellOf(s, p), answer);
    PutSelf(s, p, Act(hash, CellOf(s, p), answer));
  }

  lemma {:induction false} OneMore(hash: Hash, c: Cell, answer: Answer, rest: seq<Answer>)
    requires Fits(c.me, answer) && Plays(hash, Act(hash, c, answer), rest)
    ensures Plays(hash, c, [answer] + rest)
    ensures Played(hash, c, [answer] + rest) == Played(hash, Act(hash, c, answer), rest)
  {
    hide Act;
    assert ([answer] + rest)[1..] == rest;
  }

  ghost predicate CanFinish(hash: Hash, c: Cell) {
    exists answers :: Plays(hash, c, answers) && Played(hash, c, answers).me.pc.Done?
  }

  lemma Before(hash: Hash, c: Cell, answer: Answer)
    requires Fits(c.me, answer) && CanFinish(hash, Act(hash, c, answer))
    ensures CanFinish(hash, c)
  {
    hide Act;
    var rest :| Plays(hash, Act(hash, c, answer), rest) && Played(hash, Act(hash, c, answer), rest).me.pc.Done?;
    OneMore(hash, c, answer, rest);
  }

  /** From a verified part the blob is published. */
  lemma PublishFinishes(hash: Hash, c: Cell)
    requires c.me.pc.Promoting? && c.part.Some?
    ensures CanFinish(hash, c)
  {
    var d := Act(hash, c, End);
    var e := Act(hash, d, End);
    assert Plays(hash, e, []);
    Before(hash, d, End);
    Before(hash, c, End);
  }

  /** From an open part the right rest completes it. */
  lemma StreamFinishes(hash: Hash, c: Cell, rest: seq<byte>)
    requires c.me.pc.Streaming? && c.part.Some? && |c.part.value + rest| == c.me.size
    requires hash(c.part.value + rest) == c.me.digest
    ensures CanFinish(hash, c)
  {
    hide CanFinish;
    var d := Act(hash, c, Chunk(rest));
    var e := Act(hash, d, End);
    var f := Act(hash, e, End);
    var g := Act(hash, f, End);
    PublishFinishes(hash, g);
    Before(hash, f, End);
    Before(hash, e, End);
    Before(hash, d, End);
    Before(hash, c, Chunk(rest));
  }

  lemma AskFinishes(hash: Hash, c: Cell, content: seq<byte>)
    requires c.me.pc.Asking? && c.me.offset == |BytesOf(c.part)| && |content| == c.me.size
    requires hash(content) == c.me.digest
    ensures CanFinish(hash, c)
  {
    hide CanFinish;
    var d := Act(hash, c, Whole);
    var e := Act(hash, d, End);
    assert e.part == Some([]) && [] + content == content;
    StreamFinishes(hash, e, content);
    Before(hash, d, End);
    Before(hash, c, Whole);
  }

  /** Whatever part an earlier downloader left behind, a layer of positive size can be had. */
  lemma SizeFinishes(hash: Hash, c: Cell, content: seq<byte>)
    requires c.me.pc.Sizing? && |content| == c.me.size > 0 && hash(content) == c.me.digest
    ensures CanFinish(hash, c)
  {
    hide CanFinish;
    var d := Act(hash, c, End);
    var e := Act(hash, d, End);
    if e.me.pc.Promoting? {
      PublishFinishes(hash, e);
    } else {
      AskFinishes(hash, e, content);
    }
    Before(hash, d, End);
    Before(hash, c, End);
  }

  /** With no part file, what the store can come by. */
  ghost predicate Nothing(hash: Hash, c: Cell) {
    && (c.me.pc.Waiting? || c.me.pc.Checking? || c.me.pc.Clearing? || c.me.pc.Sizing? ==>
        c.blob == None && c.part == None)
    && (c.me.pc.Judging? ==> c.part == None && c.me.offset == 0)
    && (c.me.pc.Asking? || c.me.pc.Opening? || Transferring(c.me.pc) || Publishing(c.me.pc) || c.me.pc.Done? ==>
        c.me.size > 0)
    && (c.me.pc.Done? ==> Matches(hash, c.blob, c.me.digest) && |c.blob.value| == c.me.size)
  }

  lemma NothingStep(hash: Hash, c: Cell, answer: Answer)
    requires Sane(hash, c) && Nothing(hash, c) && Fits(c.me, answer)
    ensures Nothing(hash, Act(hash, c, answer))
  {
  }

  lemma {:induction false} NothingRun(hash: Hash, c: Cell, answers: seq<Answer>)
    requires Sane(hash, c) && Nothing(hash, c) && Plays(hash, c, answers)
    ensures Nothing(hash, Played(hash, c, answers))
    ensures Played(hash, c, answers).me.size == c.me.size && Played(hash, c, answers).me.digest == c.me.digest
    decreases |answers|
  {
    hide Act, Nothing, Sane;
    if answers != [] {
      NothingStep(hash, c, answers[0]);
      ActSane(hash, c, answers[0]);
      NothingRun(hash, Act(hash, c, answers[0]), answers[1..]);
    }
  }

  /** With nothing on disk yet a layer can be fetched if and only if its stated size is positive and some
      content has that size and digest. A layer of size zero never can. */
  lemma FirstFetchIff(hash: Hash, c: Cell)
    requires c.me.pc.Waiting? && c.blob == None && c.part == None
    ensures CanFinish(hash, c) <==> c.me.size > 0 && exists content ::
            |content| == c.me.size && hash(content) == c.me.digest
  {
    hide CanFinish;
    if c.me.size > 0 && exists content :: |content| == c.me.size && hash(content) == c.me.digest {
      var content :| |content| == c.me.size && hash(content) == c.me.digest;
      CellFinishes(hash, c, content);
    }
    if CanFinish(hash, c) { FinishedHas(hash, c); }
  }

  lemma FinishedHas(hash: Hash, c: Cell)
    requires c.me.pc.Waiting? && c.blob == None && c.part == None && CanFinish(hash, c)
    ensures c.me.size > 0 && exists content :: |content| == c.me.size && hash(content) == c.me.digest
  {
    var answers :| Plays(hash, c, answers) && Played(hash, c, answers).me.pc.Done?;
    NothingRun(hash, c, answers);
  }

  /** In whatever state crashes have left the store, a downloader that finds the lock free can still fetch a
      layer of positive size. */
  lemma {:induction false} AlwaysFetchable(hash: Hash, s: Store, p: nat, content: seq<byte>)
    requires Inv(hash, s) && p in s.procs && s.procs[p].pc.Waiting? && s.procs[p].digest !in s.locks
    requires |content| == s.procs[p].size > 0 && hash(content) == s.procs[p].digest
    ensures exists steps ::
            Possible(hash, s, steps) && p in Run(hash, s, steps).procs && Run(hash, s, steps).procs[p].pc.Done?
  {
    hide Inv, Act, Run, Possible;
    CellFinishes(hash, CellOf(s, p), content);
    var answers :| Plays(hash, CellOf(s, p), answers) && Played(hash, CellOf(s, p), answers).me.pc.Done?;
    SoloRun(hash, s, p, answers);
    assert Possible(hash, s, Goes(p, answers));
  }

  lemma CellFinishes(hash: Hash, c: Cell, content: seq<byte>)
    requires c.me.pc.Waiting? && |content| == c.me.size > 0 && hash(content) == c.me.digest
    ensures CanFinish(hash, c)
  {
    hide CanFinish;
    var d := Act(hash, c, End);
    var e := Act(hash, d, End);
    if e.me.pc.Done? {
      Finished(hash, e);
    } else {
      var f := Act(hash, e, End);
      SizeFinishes(hash, f, content);
      Before(hash, e, End);
    }
    Before(hash, d, End);
    Before(hash, c, End);
  }

  lemma Finished(hash: Hash, c: Cell)
    requires c.me.pc.Done?
    ensures CanFinish(hash, c)
  {
    assert Plays(hash, c, []) && Played(hash, c, []).me.pc.Done?;
  }
}
