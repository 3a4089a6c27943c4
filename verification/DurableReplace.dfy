/** The checkpoint writers' protocol over a file system with volatile and durable layers. */
module DurableReplace {

  // Both runners write a checkpoint the same way: open a temporary file, dump the payload, flush,
  // fsync the file, rename it over the target, fsync the directory, and in any case unlink the
  // temporary name.  Here every one of those operations is a separate step; between any two of them
  // the kernel may write back data or the directory on its own, data that was not synced may reach
  // the disk torn, an operation may raise, or the power may fail.
  //
  // The directory is assumed to become durable as whole snapshots, in order (a journalled rename).

  import opened Outcomes

  /** What a file holds: garbage, a prefix or nothing useful, or one complete payload. */
  datatype Content<A> = Torn | Whole(payload: A)

  datatype Name = Target | Temporary(pid: nat)

  datatype FileSystem<A> = FileSystem(
    dir: map<Name, nat>,              // directory as processes see it: name to inode
    dirDurable: map<Name, nat>,       // directory as it would be after a power cut
    data: map<nat, Content<A>>,       // inode contents as processes see them
    dataDurable: map<nat, Content<A>> // inode contents as they would be after a power cut
  )

  datatype Phase = Entered | Opened | Dumped | Synced | Renamed | Returned | Raised

  datatype Writer<A> = Writer(pid: nat, payload: A, phase: Phase)

  /** Everything that can happen while a writer is running, power cuts apart. */
  datatype Event =
    | Advance          // the writer performs its next operation
    | Raise            // that operation raises instead
    | WriteBack(inode: nat)
    | Tear(inode: nat)
    | WriteBackDir

  /** The content a reader of the target sees now. */
  function Visible<A>(fs: FileSystem<A>): Option<Content<A>> {
    View(fs.dir, fs.data)
  }

  /** The content a reader of the target would see if the power failed now. */
  function Surviving<A>(fs: FileSystem<A>): Option<Content<A>> {
    View(fs.dirDurable, fs.dataDurable)
  }

  function View<A>(dir: map<Name, nat>, data: map<nat, Content<A>>): Option<Content<A>> {
    if Target !in dir then None
    else if dir[Target] !in data then Some(Torn)
    else Some(data[dir[Target]])
  }

  function PowerCut<A>(fs: FileSystem<A>): FileSystem<A> {
    fs.(dir := fs.dirDurable, data := fs.dataDurable)
  }

  /** An inode number no directory entry and no content uses. */
  function Fresh<A>(fs: FileSystem<A>): (inode: nat)
    ensures inode !in fs.data && inode !in fs.dataDurable
    ensures inode !in fs.dir.Values && inode !in fs.dirDurable.Values
  {
    var used := fs.data.Keys + fs.dataDurable.Keys + fs.dir.Values + fs.dirDurable.Values;
    var inode := Above(used);
    inode
  }

  function Above(used: set<nat>): (bound: nat)
    ensures forall n | n in used :: n < bound
  {
    if used == {} then 0 else
    MaxIn(used) + 1
  }

  function MaxIn(used: set<nat>): (m: nat)
    requires used != {}
    ensures m in used && forall n | n in used :: n <= m
  {
    MaxExists(used);
    var m :| m in used && forall n | n in used :: n <= m;
    m
  }

  lemma {:induction false} MaxExists(used: set<nat>)
    requires used != {}
    ensures exists m :: m in used && forall n | n in used :: n <= m
  {
    var x :| x in used;
    if used != {x} {
      MaxExists(used - {x});
      var m :| m in used - {x} && forall n | n in used - {x} :: n <= m;
      assert forall n | n in used :: n == x || n in used - {x};
      var top := if m < x then x else m;
      assert top in used && forall n | n in used :: n <= top;
    }
  }

  function UnlinkTemporary<A>(fs: FileSystem<A>, pid: nat): FileSystem<A> {
    fs.(dir := fs.dir - {Temporary(pid)})
  }

  /** open(..., "w"): truncate the inode the name already has, or create one. */
  function OpenTruncating<A>(fs: FileSystem<A>, name: Name): FileSystem<A> {
    if name in fs.dir then
      fs.(data := fs.data[fs.dir[name] := Torn])
    else
      var inode := Fresh(fs);
      fs.(dir := fs.dir[name := inode],
          data := fs.data[inode := Torn],
          dataDurable := fs.dataDurable[inode := Torn])
  }

  function Happen<A(==)>(fs: FileSystem<A>, w: Writer<A>, e: Event): (FileSystem<A>, Writer<A>) {
    var tmp := Temporary(w.pid);
    match e
    case Advance =>
      (match w.phase
       case Entered => (OpenTruncating(fs, tmp), w.(phase := Opened))
       case Opened =>
         if tmp !in fs.dir then (fs, w) else
         (fs.(data := fs.data[fs.dir[tmp] := Whole(w.payload)]), w.(phase := Dumped))
       case Dumped =>
         if tmp !in fs.dir || fs.dir[tmp] !in fs.data then (fs, w) else
         (fs.(dataDurable := fs.dataDurable[fs.dir[tmp] := fs.data[fs.dir[tmp]]]), w.(phase := Synced))
       case Synced =>
         if tmp !in fs.dir then (fs, w) else
         (fs.(dir := (fs.dir - {tmp})[Target := fs.dir[tmp]]), w.(phase := Renamed))
       case Renamed =>
         (UnlinkTemporary(fs.(dirDurable := fs.dir), w.pid), w.(phase := Returned))
       case _ => (fs, w))
    case Raise =>
      if w.phase.Returned? || w.phase.Raised? then (fs, w)
      else (UnlinkTemporary(fs, w.pid), w.(phase := Raised))
    case _ => (Background(fs, e), w)
  }

  /** The kernel acting on its own. */
  function Background<A(==)>(fs: FileSystem<A>, e: Event): FileSystem<A> {
    match e
    case WriteBack(i) =>
      if i in fs.data then fs.(dataDurable := fs.dataDurable[i := fs.data[i]]) else fs
    case Tear(i) =>
      if i in fs.data && i in fs.dataDurable && fs.data[i] != fs.dataDurable[i]
      then fs.(dataDurable := fs.dataDurable[i := Torn]) else fs
    case WriteBackDir => fs.(dirDurable := fs.dir)
    case _ => fs
  }

  function HappenAll<A(==)>(fs: FileSystem<A>, w: Writer<A>, es: seq<Event>): (FileSystem<A>, Writer<A>)
    decreases |es|
  {
    if es == [] then (fs, w)
    else var (fs', w') := Happen(fs, w, es[0]); HappenAll(fs', w', es[1..])
  }

  // ----- the invariant -----

  /** The inode bound to the target in d holds one complete allowed payload, the same on disk. */
  ghost predicate Sound<A(!new)>(fs: FileSystem<A>, d: map<Name, nat>, allowed: A -> bool, absentAllowed: bool) {
    if Target !in d then absentAllowed
    else
      && d[Target] in fs.data && d[Target] in fs.dataDurable
      && fs.data[d[Target]] == fs.dataDurable[d[Target]]
      && fs.data[d[Target]].Whole? && allowed(fs.data[d[Target]].payload)
  }

  ghost predicate Injective(d: map<Name, nat>) {
    forall a, b | a in d && b in d && d[a] == d[b] :: a == b
  }

  ghost predicate Inv<A(!new)>(fs: FileSystem<A>, allowed: A -> bool, absentAllowed: bool) {
    && Sound(fs, fs.dir, allowed, absentAllowed)
    && Sound(fs, fs.dirDurable, allowed, absentAllowed)
    && Injective(fs.dir) && Injective(fs.dirDurable)
    && (forall p | Temporary(p) in fs.dir && Target in fs.dirDurable
          :: fs.dir[Temporary(p)] != fs.dirDurable[Target])
  }

  /** What the writer knows at each phase. */
  ghost predicate WriterInv<A(!new)>(fs: FileSystem<A>, w: Writer<A>) {
    var tmp := Temporary(w.pid);
    match w.phase
    case Entered => true
    case Opened => tmp in fs.dir
    case Dumped => tmp in fs.dir && fs.dir[tmp] in fs.data && fs.data[fs.dir[tmp]] == Whole(w.payload)
    case Synced =>
      && tmp in fs.dir && fs.dir[tmp] in fs.data && fs.dir[tmp] in fs.dataDurable
      && fs.data[fs.dir[tmp]] == fs.dataDurable[fs.dir[tmp]] == Whole(w.payload)
    case Renamed => Visible(fs) == Some(Whole(w.payload))
    case Returned => Visible(fs) == Some(Whole(w.payload)) && Surviving(fs) == Some(Whole(w.payload))
    case Raised => true
  }

  lemma {:induction false} AdvanceKeepsInv<A(!new)>(fs: FileSystem<A>, w: Writer<A>, allowed: A -> bool,
          absentAllowed: bool)
    requires Inv(fs, allowed, absentAllowed) && WriterInv(fs, w) && allowed(w.payload)
    ensures var (fs', w') := Happen(fs, w, Advance);
      Inv(fs', allowed, absentAllowed) && WriterInv(fs', w')
  {
  }

  lemma {:induction false} UnlinkKeepsInv<A(!new)>(fs: FileSystem<A>, pid: nat, allowed: A -> bool, absentAllowed: bool)
    requires Inv(fs, allowed, absentAllowed)
    ensures Inv(UnlinkTemporary(fs, pid), allowed, absentAllowed)
    ensures Visible(UnlinkTemporary(fs, pid)) == Visible(fs) && Surviving(UnlinkTemporary(fs, pid)) == Surviving(fs)
  {
  }

  lemma {:induction false} BackgroundKeepsWriter<A(!new)>(fs: FileSystem<A>, w: Writer<A>, e: Event,
          allowed: A -> bool, absentAllowed: bool)
    requires Inv(fs, allowed, absentAllowed) && WriterInv(fs, w)
    ensures WriterInv(Background(fs, e), w)
  {
  }

  lemma {:induction false} HappenKeepsInv<A(!new)>(fs: FileSystem<A>, w: Writer<A>, e: Event, allowed: A -> bool,
          absentAllowed: bool)
    requires Inv(fs, allowed, absentAllowed) && WriterInv(fs, w) && allowed(w.payload)
    ensures var (fs', w') := Happen(fs, w, e);
      && Inv(fs', allowed, absentAllowed) && WriterInv(fs', w')
      && w'.payload == w.payload && w'.pid == w.pid
  {
    match e {
      case Advance => AdvanceKeepsInv(fs, w, allowed, absentAllowed);
      case Raise => UnlinkKeepsInv(fs, w.pid, allowed, absentAllowed);
      case _ =>
        BackgroundKeepsInv(fs, e, allowed, absentAllowed);
        BackgroundKeepsWriter(fs, w, e, allowed, absentAllowed);
    }
  }

  lemma {:induction false} BackgroundKeepsInv<A(!new)>(fs: FileSystem<A>, e: Event, allowed: A -> bool,
          absentAllowed: bool)
    requires Inv(fs, allowed, absentAllowed)
    ensures Inv(Background(fs, e), allowed, absentAllowed)
    ensures Visible(Background(fs, e)) == Visible(fs)
    ensures Surviving(Background(fs, e)) == Surviving(fs) || Surviving(Background(fs, e)) == Visible(fs)
  {
  }

  lemma {:induction false} PowerCutKeepsInv<A(!new)>(fs: FileSystem<A>, allowed: A -> bool, absentAllowed: bool)
    requires Inv(fs, allowed, absentAllowed)
    ensures Inv(PowerCut(fs), allowed, absentAllowed)
    ensures Visible(PowerCut(fs)) == Surviving(fs) == Surviving(PowerCut(fs))
  {
  }

  // ----- one call, under every schedule -----

  /** No write is pending: both layers agree, the target's file is complete, and names are not aliased. */
  ghost predicate Quiescent<A(!new)>(fs: FileSystem<A>, prior: Option<A>) {
    && Inv(fs, a => prior == Some(a), prior.None?)
    && (prior.Some? ==> Visible(fs) == Surviving(fs) == Some(Whole(prior.value)))
  }

  /** Whatever the kernel does and wherever the call is interrupted, both readers now and readers
      after a power cut find exactly the old or exactly the new payload, and absence only if the
      checkpoint was absent before.  A call that returned has made the new payload durable, and a
      call that raised before the rename has left the old one. */
  lemma {:induction false} AtomicReplace<A(!new)>(fs: FileSystem<A>, prior: Option<A>, pid: nat, payload: A,
          es: seq<Event>)
    requires Quiescent(fs, prior)
    ensures var (fs', w') := HappenAll(fs, Writer(pid, payload, Entered), es);
      var before := if prior.Some? then Some(Whole(prior.value)) else None;
      && (Visible(fs') == before || Visible(fs') == Some(Whole(payload)))
      && (Surviving(fs') == before || Surviving(fs') == Some(Whole(payload)))
      && (w'.phase.Returned? ==> Visible(fs') == Surviving(fs') == Some(Whole(payload)))
      && (Early(w'.phase) ==> Visible(fs') == Surviving(fs') == before)
  {
    var allowed := (a: A) => prior == Some(a) || a == payload;
    HappenAllKeepsInv(fs, Writer(pid, payload, Entered), es, allowed, prior.None?);
    EarlyPhasesChangeNothing(fs, Writer(pid, payload, Entered), es, allowed, prior.None?);
  }

  predicate Early(p: Phase) {
    p.Entered? || p.Opened? || p.Dumped? || p.Synced?
  }

  lemma {:induction false} EarlyStep<A(!new)>(fs: FileSystem<A>, w: Writer<A>, e: Event, allowed: A -> bool,
          absentAllowed: bool)
    requires Inv(fs, allowed, absentAllowed) && WriterInv(fs, w)
    requires Visible(fs) == Surviving(fs)
    ensures var (fs', w') := Happen(fs, w, e);
      Early(w'.phase) ==> Early(w.phase) && Visible(fs') == Surviving(fs') == Visible(fs)
  {
  }

  /** Until the rename, nobody can tell that a write is under way. */
  lemma {:induction false} EarlyPhasesChangeNothing<A(!new)>(fs: FileSystem<A>, w: Writer<A>, es: seq<Event>,
          allowed: A -> bool, absentAllowed: bool)
    requires Inv(fs, allowed, absentAllowed) && WriterInv(fs, w) && allowed(w.payload)
    requires Early(w.phase) ==> Visible(fs) == Surviving(fs)
    ensures var (fs', w') := HappenAll(fs, w, es);
      Early(w'.phase) ==> Early(w.phase) && Visible(fs') == Surviving(fs') == Visible(fs)
    decreases |es|
  {
    if es != [] {
      var (fs', w') := Happen(fs, w, es[0]);
      HappenKeepsInv(fs, w, es[0], allowed, absentAllowed);
      if Early(w'.phase) {
        EarlyStep(fs, w, es[0], allowed, absentAllowed);
      }
      EarlyPhasesChangeNothing(fs', w', es[1..], allowed, absentAllowed);
    }
  }

  /** After a power cut at any point of the call, the file system is one the next process can start
      from: quiescent with the old payload or quiescent with the new one. */
  lemma {:induction false} PowerCutAnywhere<A(!new)>(fs: FileSystem<A>, prior: Option<A>, pid: nat, payload: A,
          es: seq<Event>)
    requires Quiescent(fs, prior)
    ensures var left := PowerCut(HappenAll(fs, Writer(pid, payload, Entered), es).0);
      Quiescent(left, prior) || Quiescent(left, Some(payload))
  {
    var allowed := (a: A) => prior == Some(a) || a == payload;
    HappenAllKeepsInv(fs, Writer(pid, payload, Entered), es, allowed, prior.None?);
    AtomicReplace(fs, prior, pid, payload, es);
    PowerCutKeepsInv(HappenAll(fs, Writer(pid, payload, Entered), es).0, allowed, prior.None?);
  }

  lemma {:induction false} HappenAllKeepsInv<A(!new)>(fs: FileSystem<A>, w: Writer<A>, es: seq<Event>,
          allowed: A -> bool, absentAllowed: bool)
    requires Inv(fs, allowed, absentAllowed) && WriterInv(fs, w) && allowed(w.payload)
    ensures var (fs', w') := HappenAll(fs, w, es);
      Inv(fs', allowed, absentAllowed) && WriterInv(fs', w') && w'.payload == w.payload
    decreases |es|
  {
    if es != [] {
      var (fs', w') := Happen(fs, w, es[0]);
      HappenKeepsInv(fs, w, es[0], allowed, absentAllowed);
      HappenAllKeepsInv(fs', w', es[1..], allowed, absentAllowed);
    }
  }

  // ----- what the protocol owes to whole snapshots of the directory -----

  /** One entry of the directory becomes durable on its own; this is not among the events above. */
  function WriteBackEntry<A>(fs: FileSystem<A>, name: Name): FileSystem<A> {
    if name in fs.dir then fs.(dirDurable := fs.dirDurable[name := fs.dir[name]])
    else fs.(dirDurable := fs.dirDurable - {name})
  }

  predicate Aliased<A>(fs: FileSystem<A>, pid: nat) {
    Temporary(pid) in fs.dir && Target in fs.dir && fs.dir[Temporary(pid)] == fs.dir[Target]
  }

  /** A writer's first operation destroys a checkpoint exactly when its temporary name shares the inode. */
  lemma {:induction false} OpeningTearsExactly<A>(fs: FileSystem<A>, w: Writer<A>, a: A)
    requires w.phase.Entered? && Visible(fs) == Some(Whole(a))
    ensures var after := Happen(fs, w, Advance).0;
      if Aliased(fs, w.pid) then Visible(after) == Some(Torn) else Visible(after) == Visible(fs)
  {
  }

  /** A state after a rename in which the temporary name is durable and the new target is not. */
  ghost predicate HalfRenamed<A(!new)>(fs: FileSystem<A>, pid: nat, payload: A) {
    && Target in fs.dir && Temporary(pid) in fs.dirDurable && fs.dirDurable[Temporary(pid)] == fs.dir[Target]
    && fs.dir[Target] in fs.dataDurable && fs.dataDurable[fs.dir[Target]] == Whole(payload)
  }

  /** Every file system leads there: the directory is written back while the payload is being dumped. */
  lemma {:induction false} HalfRenamedIsReached<A(!new)>(fs: FileSystem<A>, prior: Option<A>, pid: nat, payload: A)
    requires Quiescent(fs, prior)
    ensures var es := [Advance, WriteBackDir, Advance, Advance, Advance];
      var (renamed, w) := HappenAll(fs, Writer(pid, payload, Entered), es);
      w.phase.Renamed? && HalfRenamed(renamed, pid, payload)
  {
    var w := Writer(pid, payload, Entered);
    var (created, w1) := Happen(fs, w, Advance);
    var (known, w2) := Happen(created, w1, WriteBackDir);
    var es := [Advance, WriteBackDir, Advance, Advance, Advance];
    assert es[1..] == [WriteBackDir, Advance, Advance, Advance] && es[1..][1..] == [Advance, Advance, Advance];
    assert HappenAll(fs, w, es) == HappenAll(known, w2, [Advance, Advance, Advance]);
    var (dumped, w3) := Happen(known, w2, Advance);
    var (synced, w4) := Happen(dumped, w3, Advance);
    var (renamed, w5) := Happen(synced, w4, Advance);
    assert [Advance, Advance, Advance][1..] == [Advance, Advance] && [Advance, Advance][1..] == [Advance];
    assert [Advance][1..] == [];
    assert HappenAll(known, w2, [Advance, Advance, Advance]) == HappenAll(synced, w4, [Advance]) == (renamed, w5);
  }

  /** Were the two halves of a rename to become durable apart, with the target first, a power loss would
      leave both names on one file, and a later process of the same number would truncate the checkpoint. */
  lemma {:induction false} EntriesApartLoseCheckpoint<A(!new)>(fs: FileSystem<A>, pid: nat, payload: A, next: A)
    requires HalfRenamed(fs, pid, payload)
    ensures var left := PowerCut(WriteBackEntry(fs, Target));
      && Visible(left) == Some(Whole(payload)) && Aliased(left, pid)
      && Visible(Happen(left, Writer(pid, next, Entered), Advance).0) == Some(Torn)
  {
    OpeningTearsExactly(PowerCut(WriteBackEntry(fs, Target)), Writer(pid, next, Entered), payload);
  }
}
