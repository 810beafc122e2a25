/** Building and publishing images beside the blob store: builders fetch the layers of a manifest through
    downloaders, apply the blobs to a disk in a staging directory of their own, describe it and rename the
    directory into place. Builders and downloaders run in any order and may stop at any step. */
module Images {
  import opened Bytes
  import B = Blobs

  /** A directory: the root disk with the blobs applied to it so far, whether the disk was finished, and the
      image that the metadata file names. */
  datatype Dir = Dir(created: bool, applied: seq<seq<byte>>, finished: bool, meta: Option<nat>)

  datatype Place = Arriving | Looking | Fetching | Applying | Finishing | Describing | Checking | Renaming | Returned
    | Gone

  /** `fetchers` are the downloaders of the layers, in the order of the manifest. */
  datatype Builder = Builder(image: nat, fetchers: seq<nat>, place: Place, staging: Dir)

  datatype System = System(store: B.Store, images: map<nat, Dir>, locks: map<nat, nat>, builders: map<nat, Builder>)

  /** The hash function, and the layers of the manifest with a given digest. */
  datatype World = World(hash: B.Hash, layers: nat -> seq<nat>)

  datatype Step = InStore(step: B.Step) | Start(b: nat, image: nat, fetchers: seq<nat>) | Advance(b: nat) | Stop(b: nat)

  const NEW_DIR: Dir := Dir(false, [], false, None)
  const START: System := System(B.EMPTY, map[], map[], map[])

  /** What the cache accepts: a root disk and metadata that name the image. */
  predicate Readable(image: nat, dir: Dir) { dir.created && dir.meta == Some(image) }

  /** The disk is finished and every layer of the manifest was applied, in order, from content that hashes to
      its digest. */
  ghost predicate Complete(w: World, image: nat, dir: Dir) {
    dir.finished && Readable(image, dir) && AppliedUpTo(w, image, dir, |w.layers(image)|)
  }

  ghost predicate AppliedUpTo(w: World, image: nat, dir: Dir, n: nat) {
    n <= |w.layers(image)| && |dir.applied| == n && forall k :: 0 <= k < n ==>
      w.hash(dir.applied[k]) == w.layers(image)[k]
  }

  ghost predicate Fetched(w: World, store: B.Store, image: nat, fetchers: seq<nat>) {
    && |fetchers| == |w.layers(image)|
    && forall k :: 0 <= k < |fetchers| ==> FetchedOne(store, fetchers[k], w.layers(image)[k])
  }

  predicate FetchedOne(store: B.Store, p: nat, d: nat) {
    p in store.procs && store.procs[p].digest == d && store.procs[p].pc.Done?
  }

  ghost predicate Enabled(w: World, s: System, a: Step) {
    match a
    case InStore(step) => B.Enabled(s.store, step)
    case Start(b, _, _) => b !in s.builders
    case Stop(b) => b in s.builders && !s.builders[b].place.Returned? && !s.builders[b].place.Gone?
    case Advance(b) =>
      && b in s.builders && !s.builders[b].place.Returned? && !s.builders[b].place.Gone?
      && (s.builders[b].place.Arriving? ==> s.builders[b].image !in s.locks)
      && (s.builders[b].place.Fetching? ==> Fetched(w, s.store, s.builders[b].image, s.builders[b].fetchers))
  }

  function Moved(s: System, b: nat, me: Builder): System {
    s.(builders := s.builders[b := me])
  }

  /** Leaving gives the lock back. */
  function Left(s: System, b: nat, me: Builder): System {
    s.(builders := s.builders[b := me], locks := s.locks - {me.image})
  }

  /** A directory already in place is taken if it can be read and is an error otherwise. */
  function Found(s: System, b: nat, me: Builder, dir: Dir): System {
    Left(s, b, me.(place := if Readable(me.image, dir) then Returned else Gone))
  }

  function Advanced(w: World, s: System, b: nat): System
    requires b in s.builders
  {
    var me := s.builders[b];
    match me.place
    case Arriving => Moved(s.(locks := s.locks[me.image := b]), b, me.(place := Looking))
    case Looking => if me.image in s.images then Found(s, b, me, s.images[me.image])
      else Moved(s, b, me.(place := Fetching))
    case Fetching => Moved(s, b, me.(place := Applying, staging := NEW_DIR.(created := true)))
    case Applying =>
      var n := |me.staging.applied|;
      if n >= |w.layers(me.image)| then Moved(s, b, me.(place := Finishing))
      else (
        var d := w.layers(me.image)[n];
        if d in s.store.blobs then Moved(s, b,
                                         me.(staging := me.staging.(applied := me.staging.applied
                                                                    + [s.store.blobs[d]])))
        else Left(s, b, me.(place := Gone))
      )
    case Finishing => Moved(s, b, me.(place := Describing, staging := me.staging.(finished := true)))
    case Describing => Moved(s, b, me.(place := Checking, staging := me.staging.(meta := Some(me.image))))
    case Checking => if me.image in s.images then Found(s, b, me, s.images[me.image])
      else Moved(s, b, me.(place := Renaming))
    case Renaming =>
      if me.image in s.images then Left(s, b, me.(place := Gone))
      else Left(s.(images := s.images[me.image := me.staging]), b, me.(place := Returned))
    case Returned => s
    case Gone => s
  }

  function Next(w: World, s: System, a: Step): System
    requires Enabled(w, s, a)
  {
    match a
    case InStore(step) => s.(store := B.Next(w.hash, s.store, step))
    case Start(b, image, fetchers) => Moved(s, b, Builder(image, fetchers, Arriving, NEW_DIR))
    case Stop(b) =>
      var me := s.builders[b].(place := Gone);
      if s.builders[b].place.Arriving? then Moved(s, b, me) else Left(s, b, me)
    case Advance(b) => Advanced(w, s, b)
  }

  // ----- What always holds -----

  predicate AtWork(place: Place) {
    place.Applying? || place.Finishing? || place.Describing? || place.Checking? || place.Renaming?
  }

  ghost predicate BuilderSane(w: World, s: System, me: Builder) {
    && (AtWork(me.place) ==> Fetched(w, s.store, me.image, me.fetchers) && me.staging.created)
    && (me.place.Applying? ==> AppliedUpTo(w, me.image, me.staging, |me.staging.applied|))
    && (AtWork(me.place) && !me.place.Applying? ==> AppliedUpTo(w, me.image, me.staging, |w.layers(me.image)|))
    && (me.place.Describing? || me.place.Checking? || me.place.Renaming? ==> me.staging.finished)
    && (me.place.Checking? || me.place.Renaming? ==> Complete(w, me.image, me.staging))
    && (me.place.Returned? ==> me.image in s.images)
  }

  ghost predicate Inv(w: World, s: System) {
    && B.Inv(w.hash, s.store)
    && (forall i :: i in s.images ==> Complete(w, i, s.images[i]))
    && (forall b :: b in s.builders ==> BuilderSane(w, s, s.builders[b]))
  }

  /** A downloader that is done stays so. */
  lemma DoneStays(hash: B.Hash, store: B.Store, step: B.Step, p: nat, d: nat)
    requires B.Enabled(store, step) && FetchedOne(store, p, d)
    ensures FetchedOne(B.Next(hash, store, step), p, d)
  {
    hide B.Act, B.WithSlot;
  }

  /** A fetched layer is there to be read, though its lock was given back long ago. */
  lemma FetchedIsThere(w: World, s: System, p: nat, d: nat)
    requires B.Inv(w.hash, s.store) && FetchedOne(s.store, p, d)
    ensures d in s.store.blobs && w.hash(s.store.blobs[d]) == d
  {
    assert B.Sane(w.hash, B.CellOf(s.store, p));
  }

  lemma InStoreKeeps(w: World, s: System, step: B.Step)
    requires Inv(w, s) && B.Enabled(s.store, step)
    ensures Inv(w, Next(w, s, InStore(step)))
  {
    hide B.Inv, B.Enabled, B.Next, Complete, AppliedUpTo, FetchedOne;
    var t := Next(w, s, InStore(step));
    B.StepKeeps(w.hash, s.store, step, 0);
    forall b | b in t.builders ensures BuilderSane(w, t, t.builders[b]) {
      var me := s.builders[b];
      assert BuilderSane(w, s, me);
      if AtWork(me.place) {
        forall k | 0 <= k < |me.fetchers| ensures FetchedOne(t.store, me.fetchers[k], w.layers(me.image)[k]) {
          DoneStays(w.hash, s.store, step, me.fetchers[k], w.layers(me.image)[k]);
        }
      }
    }
  }

  lemma ApplySelf(w: World, s: System, b: nat)
    requires Inv(w, s) && Enabled(w, s, Advance(b)) && s.builders[b].place.Applying?
    ensures var t := Next(w, s, Advance(b)); b in t.builders && BuilderSane(w, t, t.builders[b])
  {
    hide B.Inv, FetchedOne;
    var me := s.builders[b];
    assert BuilderSane(w, s, me);
    var n := |me.staging.applied|;
    if n < |w.layers(me.image)| { FetchedIsThere(w, s, me.fetchers[n], w.layers(me.image)[n]); }
  }

  lemma AdvanceSelf(w: World, s: System, b: nat)
    requires Inv(w, s) && Enabled(w, s, Advance(b))
    ensures var t := Next(w, s, Advance(b)); b in t.builders && BuilderSane(w, t, t.builders[b])
  {
    hide B.Inv, Fetched;
    assert BuilderSane(w, s, s.builders[b]);
    if s.builders[b].place.Applying? { ApplySelf(w, s, b); }
  }

  lemma AdvanceImages(w: World, s: System, b: nat, i: nat)
    requires Inv(w, s) && Enabled(w, s, Advance(b))
    ensures var t := Next(w, s, Advance(b));
            && t.store == s.store && (i in t.images ==> Complete(w, i, t.images[i]))
            && (i in s.images ==> i in t.images && t.images[i] == s.images[i])
  {
    hide B.Inv, Complete, Fetched, AppliedUpTo;
    assert BuilderSane(w, s, s.builders[b]);
  }

  lemma AdvanceOther(w: World, s: System, b: nat, q: nat)
    requires Inv(w, s) && Enabled(w, s, Advance(b)) && q != b && q in s.builders
    ensures var t := Next(w, s, Advance(b));
            q in t.builders && t.builders[q] == s.builders[q] && BuilderSane(w, t, t.builders[q])
  {
    hide B.Inv, Complete, Fetched, AppliedUpTo;
    assert BuilderSane(w, s, s.builders[q]);
    AdvanceImages(w, s, b, s.builders[q].image);
  }

  lemma AdvanceKeeps(w: World, s: System, b: nat)
    requires Inv(w, s) && Enabled(w, s, Advance(b))
    ensures Inv(w, Next(w, s, Advance(b)))
  {
    hide B.Inv, Complete, BuilderSane, Enabled;
    var t := Next(w, s, Advance(b));
    AdvanceSelf(w, s, b);
    AdvanceImages(w, s, b, 0);
    forall i | i in t.images ensures Complete(w, i, t.images[i]) { AdvanceImages(w, s, b, i); }
    forall q | q in t.builders ensures BuilderSane(w, t, t.builders[q]) {
      if q != b { AdvanceOther(w, s, b, q); }
    }
  }

  /** Every step keeps the invariant, and an image in place is never changed. */
  lemma StepKeeps(w: World, s: System, a: Step, i: nat)
    requires Inv(w, s) && Enabled(w, s, a)
    ensures Inv(w, Next(w, s, a))
    ensures i in s.images ==> i in Next(w, s, a).images && Next(w, s, a).images[i] == s.images[i]
  {
    hide B.Inv, B.Next, Complete, Fetched, AppliedUpTo, Advanced;
    match a {
      case InStore(step) => InStoreKeeps(w, s, step);
      case Start(_, _, _) =>
      case Stop(_) =>
      case Advance(b) =>
        AdvanceKeeps(w, s, b);
        AdvanceImages(w, s, b, i);
    }
  }

  // ----- Whole runs -----

  ghost predicate Possible(w: World, s: System, steps: seq<Step>)
    decreases |steps|
  {
    steps != [] ==> Enabled(w, s, steps[0]) && Possible(w, Next(w, s, steps[0]), steps[1..])
  }

  ghost function Run(w: World, s: System, steps: seq<Step>): System
    requires Possible(w, s, steps)
    decreases |steps|
  {
    if steps == [] then s else Run(w, Next(w, s, steps[0]), steps[1..])
  }

  lemma {:induction false} RunKeeps(w: World, s: System, steps: seq<Step>, i: nat)
    requires Inv(w, s) && Possible(w, s, steps)
    ensures Inv(w, Run(w, s, steps))
    ensures i in s.images ==> i in Run(w, s, steps).images && Run(w, s, steps).images[i] == s.images[i]
    decreases |steps|
  {
    hide Inv, Enabled, Next;
    if steps != [] {
      StepKeeps(w, s, steps[0], i);
      RunKeeps(w, Next(w, s, steps[0]), steps[1..], i);
    }
  }

  /** Over every run from nothing, with builders and downloaders stopping anywhere: an image directory is
      visible only when it is complete, and an image that was returned is visible. */
  lemma {:induction false} VisibleIsComplete(w: World, steps: seq<Step>, i: nat, b: nat)
    requires Possible(w, START, steps)
    ensures var s := Run(w, START, steps);
            && (i in s.images ==> Complete(w, i, s.images[i]))
            && (b in s.builders && s.builders[b].place.Returned? ==> s.builders[b].image in s.images)
  {
    hide Run, Possible, Complete;
    RunKeeps(w, START, steps, i);
    var s := Run(w, START, steps);
    if b in s.builders { assert BuilderSane(w, s, s.builders[b]); }
  }
}
