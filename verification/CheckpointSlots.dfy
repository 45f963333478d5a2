/**
 The crash-safe slot replacement of uav_agent/experiments/checkpoint_manager.py:
 stage a tree, rename the old slot away, rename the staged tree in, drop the
 old one; and the recovery that runs before a manager is used.

 Every file-system operation is told its fate.  A rename is atomic, a removal
 may stop half-way, and the process may die before or after any of them.
 */
module CheckpointSlots {
  import opened Common

  /** A directory tree; `mtime` is when its top level last changed. */
  datatype Tree = Tree(content: nat, whole: bool, mtime: nat) {
    /** What is left when part of the tree has been deleted. */
    function Partial(top: bool, now: nat): Tree { this.(whole := false, mtime := if top then now else mtime) }
  }

  datatype Rename = Renamed | Refused | DiedBefore | DiedAfter

  /**
   StuckPartly raises after having deleted something, with the process alive.
   Only a removal that got as far as the tree's `top` level changes when the
   tree was last modified; one stuck in a subdirectory does not.
   */
  datatype Removal = Removed | DiedUntouched | DiedPartly(top: bool) | StuckPartly(top: bool) {
    predicate Dies() { DiedUntouched? || DiedPartly? }

    /** Leaves a partial tree that counts as newly modified. */
    predicate StuckAtTop() { StuckPartly? && top }
  }

  datatype Staging = Staged | StagingRaised | StagingDied

  datatype Outcome = Done | Raised | Died

  datatype WriteFates = WriteFates(stage: Staging, moveOld: Rename, commit: Rename, rollback: Rename,
                                   dropBackup: Removal, dropStaging: Removal)
  {
    /** The old tree's removal finishes or dies with the process. */
    predicate RemovalFinishesOrDies() { !dropBackup.StuckPartly? }

    predicate Clean() { Commits() && dropBackup.Removed? }

    /** A staged tree reaches an occupied slot. */
    predicate Commits() { stage.Staged? && moveOld.Renamed? && commit.Renamed? }

    /** The process is alive afterwards, with the old or the new tree in the slot. */
    predicate Survives() {
      && !dropStaging.Dies()
      && (stage.StagingRaised? || (stage.Staged? && (moveOld.Refused? || (moveOld.Renamed? &&
           ((commit.Refused? && rollback.Renamed?) || (commit.Renamed? && !dropBackup.Dies()))))))
    }

    /** The old tree is moved away and nothing takes its place. */
    predicate EmptiesSlot() {
      && stage.Staged?
      && (moveOld.DiedAfter? || (moveOld.Renamed? &&
           (commit.DiedBefore? || (commit.Refused? && (rollback.DiedBefore? || rollback.Refused?)))))
    }
  }

  datatype Write = Write(content: nat, fates: WriteFates)

  /** The last of these writes to commit left its predecessor's tree half-removed and newly modified. */
  predicate LastCommitStuck(writes: seq<Write>) {
    exists k: nat :: k < |writes| && writes[k].fates.Commits() && writes[k].fates.dropBackup.StuckAtTop()
      && forall j: nat | k < j < |writes| :: !writes[j].fates.Commits()
  }

  /** The content last committed, starting from a slot with this content. */
  function LastCommitted(start: nat, writes: seq<Write>): nat {
    if writes == [] then start else
      var w := writes[|writes| - 1];
      if w.fates.Commits() then w.content else LastCommitted(start, writes[..|writes| - 1])
  }

  lemma OneMoreWrite(writes: seq<Write>, i: nat)
    requires i < |writes|
    ensures LastCommitStuck(writes[..i + 1]) <==>
      if writes[i].fates.Commits() then writes[i].fates.dropBackup.StuckAtTop() else LastCommitStuck(writes[..i])
  {
    var some, more := writes[..i], writes[..i + 1];
    if writes[i].fates.Commits() && writes[i].fates.dropBackup.StuckAtTop() {
      assert more[i].fates.Commits();
    }
    if !writes[i].fates.Commits() && LastCommitStuck(some) {
      var k: nat :| k < i && some[k].fates.Commits() && some[k].fates.dropBackup.StuckAtTop()
        && forall j: nat | k < j < i :: !some[j].fates.Commits();
      assert more[k].fates.Commits();
    }
    if LastCommitStuck(more) {
      var k: nat :| k < i + 1 && more[k].fates.Commits() && more[k].fates.dropBackup.StuckAtTop()
        && forall j: nat | k < j < i + 1 :: !more[j].fates.Commits();
      if k < i {
        assert !more[i].fates.Commits() && some[k].fates.Commits();
      }
    }
  }

  datatype RecoveryFates = RecoveryFates(restore: Rename, dropBackup: nat -> Removal, dropStaging: nat -> Removal)

  predicate AllWhole(trees: seq<Tree>) { forall i | 0 <= i < |trees| :: trees[i].whole }

  predicate AllBefore(trees: seq<Tree>, time: nat) { forall i | 0 <= i < |trees| :: trees[i].mtime < time }

  /** The first of the trees in descending order of modification time. */
  function Newest(trees: seq<Tree>): (t: Tree)
    requires trees != []
    ensures t in trees && forall i | 0 <= i < |trees| :: trees[i].mtime <= t.mtime
  {
    if |trees| == 1 then trees[0] else
      var rest := Newest(trees[1..]);
      assert forall i | 1 <= i < |trees| :: trees[i] == trees[1..][i - 1];
      if trees[0].mtime >= rest.mtime then trees[0] else rest
  }

  /** What a restart would find in the slot. */
  function Logical(slot: Option<Tree>, backups: seq<Tree>): Option<Tree> {
    if slot.Some? then slot else if backups == [] then None else Some(Newest(backups))
  }

  lemma NewestAppended(trees: seq<Tree>, t: Tree)
    requires AllBefore(trees, t.mtime)
    ensures Newest(trees + [t]) == t
  {
    var newest := Newest(trees + [t]);
    assert (trees + [t])[|trees|] == t;
    var i :| 0 <= i < |trees + [t]| && (trees + [t])[i] == newest;
  }

  /** What holds whenever the process may be dead: the slot, or every backup, is a whole tree. */
  predicate SoundDead(slot: Option<Tree>, backups: seq<Tree>, clock: nat) {
    && (slot.Some? ==> slot.value.whole && slot.value.mtime < clock)
    && (slot.None? ==> AllWhole(backups))
    && AllBefore(backups, clock)
  }

  /** What holds between the operations of a living manager. */
  predicate SoundLive(slot: Option<Tree>, backups: seq<Tree>, clock: nat) {
    SoundDead(slot, backups, clock) && AllWhole(backups) && (slot.Some? ==> AllBefore(backups, slot.value.mtime))
  }

  /** Wherever a replacement stops, the directory is sound, and the old tree is the content until the new one is. */
  lemma SoundStops(slot: Option<Tree>, backups: seq<Tree>, clock: nat, staged: Tree)
    requires SoundLive(slot, backups, clock) && staged.whole && staged.mtime < clock
    requires AllBefore(backups, staged.mtime) && (slot.Some? ==> slot.value.mtime < staged.mtime)
    ensures SoundLive(Some(staged), backups, clock)
    ensures slot.Some? ==>
      && SoundLive(None, backups + [slot.value], clock) && Logical(None, backups + [slot.value]) == slot
      && SoundDead(Some(staged), backups + [slot.value], clock)
      && (forall top :: SoundDead(Some(staged), backups + [slot.value.Partial(top, clock)], clock + 1))
  {
    if slot.Some? {
      NewestAppended(backups, slot.value);
    }
  }

  /** A tree changed strictly later than every other one is the newest. */
  lemma NewestUnique(trees: seq<Tree>, k: nat)
    requires k < |trees| && forall j: nat | j < |trees| && j != k :: trees[j].mtime < trees[k].mtime
    ensures Newest(trees) == trees[k]
  {
    var newest := Newest(trees);
    var i: nat :| i < |trees| && trees[i] == newest;
  }

  /** A partial tree is newer than this time and than every other tree. */
  predicate PartialNewest(trees: seq<Tree>, time: nat) {
    exists k: nat :: k < |trees| && !trees[k].whole && time < trees[k].mtime
      && forall j: nat | j < |trees| && j != k :: trees[j].mtime < trees[k].mtime
  }

  /** What moving the slot's tree away makes the newest backup. */
  lemma NewestMovedAway(trees: seq<Tree>, t: Tree)
    requires t.whole
    ensures AllBefore(trees, t.mtime) ==> Newest(trees + [t]) == t
    ensures PartialNewest(trees, t.mtime) ==> !Newest(trees + [t]).whole
  {
    if AllBefore(trees, t.mtime) {
      NewestAppended(trees, t);
    }
    if PartialNewest(trees, t.mtime) {
      var k: nat :| k < |trees| && !trees[k].whole && t.mtime < trees[k].mtime
        && forall j: nat | j < |trees| && j != k :: trees[j].mtime < trees[k].mtime;
      assert (trees + [t])[k] == trees[k];
      NewestUnique(trees + [t], k);
    }
  }

  // ------------------------------------------- what the operations leave

  /** Where the newest tree is, the first of several. */
  function IndexOfNewest(trees: seq<Tree>): (at: nat)
    requires trees != []
    ensures at < |trees| && trees[at] == Newest(trees) && forall j | 0 <= j < at :: trees[j].mtime < Newest(trees).mtime
  {
    if |trees| == 1 || trees[0].mtime >= Newest(trees[1..]).mtime then 0
    else
      assert forall j | 1 <= j < |trees| :: trees[j] == trees[1..][j - 1];
      1 + IndexOfNewest(trees[1..])
  }

  datatype Ended = Ended(disk: Disk, outcome: Outcome)

  datatype Disk = Disk(slot: Option<Tree>, backups: seq<Tree>, stagings: seq<Tree>, clock: nat) {
    function Content(): Option<Tree> { Logical(slot, backups) }

    predicate Recoverable() { SoundDead(slot, backups, clock) }

    predicate Live() { SoundLive(slot, backups, clock) }

    predicate StagedTreeIsNewest()
      requires stagings != []
    {
      var t := stagings[|stagings| - 1];
      t.whole && t.mtime < clock && AllBefore(backups, t.mtime) && (slot.Some? ==> slot.value.mtime < t.mtime)
    }

    function MovedAway(): Disk
      requires slot.Some?
    {
      this.(slot := None, backups := backups + [slot.value])
    }

    function Committed(): Disk
      requires stagings != []
    {
      this.(slot := Some(stagings[|stagings| - 1]), stagings := stagings[..|stagings| - 1])
    }

    /** The newest backup removed, or what is left of it. */
    function DroppedLast(fate: Removal): Ended
      requires backups != []
    {
      var others, last := backups[..|backups| - 1], backups[|backups| - 1];
      match fate
      case Removed => Ended(this.(backups := others), Done)
      case DiedUntouched => Ended(this, Died)
      case DiedPartly(top) => Ended(this.(backups := others + [last.Partial(top, clock)], clock := clock + 1), Died)
      case StuckPartly(top) => Ended(this.(backups := others + [last.Partial(top, clock)], clock := clock + 1), Raised)
    }

    /** A replacement: into an empty slot, or with the old tree moved away, put back, or dropped. */
    function Replaced(f: WriteFates): Ended
      requires stagings != []
    {
      if slot.None? then
        match f.commit
        case DiedBefore => Ended(this, Died)
        case Refused => Ended(this, Raised)
        case Renamed => Ended(Committed(), Done)
        case DiedAfter => Ended(Committed(), Died)
      else
        match f.moveOld
        case DiedBefore => Ended(this, Died)
        case Refused => Ended(this, Raised)
        case DiedAfter => Ended(MovedAway(), Died)
        case Renamed => MovedAway().CommittedOr(this, f)
    }

    /** The old tree is away; `before` is the directory to put back. */
    function CommittedOr(before: Disk, f: WriteFates): Ended
      requires stagings != [] && backups != []
    {
      match f.commit
      case DiedBefore => Ended(this, Died)
      case DiedAfter => Ended(Committed(), Died)
      case Renamed => Committed().DroppedLast(f.dropBackup)
      case Refused =>
        match f.rollback
        case DiedBefore => Ended(this, Died)
        case Refused => Ended(this, Raised)
        case Renamed => Ended(before, Raised)
        case DiedAfter => Ended(before, Died)
    }

    /** The exception handler: a staging tree beyond the first `before` is removed, or what is left of it. */
    function Unstaged(before: nat, fate: Removal): Ended {
      if |stagings| <= before then Ended(this, Raised)
      else
        match fate
        case Removed => Ended(this.(stagings := stagings[..before]), Raised)
        case DiedUntouched => Ended(this, Died)
        case DiedPartly(_) => Ended(Halved(before), Died)
        case StuckPartly(_) => Ended(Halved(before), Raised)
    }

    function Halved(before: nat): Disk
      requires before < |stagings|
    {
      this.(stagings := stagings[..before] + [stagings[before].(whole := false)])
    }

    /** A staging tree has been begun, or is complete. */
    function Begun(content: nat): Disk { this.(stagings := stagings + [Tree(content, false, clock)]) }

    function Ready(content: nat): Disk { this.(stagings := stagings + [Tree(content, true, clock)], clock := clock + 1) }

    function Written(content: nat, f: WriteFates): Ended {
      if f.stage.StagingDied? then Ended(Begun(content), Died)
      else
        var end := if f.stage.Staged? then Ready(content).Replaced(f) else Ended(Begun(content), Raised);
        if end.outcome == Raised then end.disk.Unstaged(|stagings|, f.dropStaging) else end
    }

    function WrittenAll(writes: seq<Write>, n: nat): Disk
      requires n <= |writes|
    {
      if n == 0 then this else WrittenAll(writes, n - 1).Written(writes[n - 1].content, writes[n - 1].fates).disk
    }

    function Restored(): Disk
      requires backups != []
    {
      var at := IndexOfNewest(backups);
      this.(slot := Some(backups[at]), backups := backups[..at] + backups[at + 1..])
    }

    /** The backups are removed in order, until one removal fails. */
    function SweptBackups(fate: nat -> Removal, k: nat): Ended
      decreases |backups|
    {
      if backups == [] then Ended(this, Done)
      else
        match fate(k)
        case Removed => this.(backups := backups[1..]).SweptBackups(fate, k + 1)
        case DiedUntouched => Ended(this, Died)
        case DiedPartly(top) =>
          Ended(this.(backups := [backups[0].Partial(top, clock)] + backups[1..], clock := clock + 1), Died)
        case StuckPartly(top) =>
          Ended(this.(backups := [backups[0].Partial(top, clock)] + backups[1..], clock := clock + 1), Raised)
    }

    function SweptStagings(fate: nat -> Removal, k: nat): Ended
      decreases |stagings|
    {
      if stagings == [] then Ended(this, Done)
      else if fate(k).Removed? then this.(stagings := stagings[1..]).SweptStagings(fate, k + 1)
      else Ended(this, if fate(k).StuckPartly? then Raised else Died)
    }

    function Swept(f: RecoveryFates): Ended {
      var end := SweptBackups(f.dropBackup, 0);
      if end.outcome == Done then end.disk.SweptStagings(f.dropStaging, 0) else end
    }

    function Recovered(f: RecoveryFates): Ended {
      if slot.Some? || backups == [] then Swept(f)
      else
        match f.restore
        case DiedBefore => Ended(this, Died)
        case Refused => Ended(this, Raised)
        case Renamed => Restored().Swept(f)
        case DiedAfter => Ended(Restored(), Died)
    }

    function RecoveredAll(fates: seq<RecoveryFates>, n: nat): Disk
      requires n <= |fates|
    {
      if n == 0 then this else RecoveredAll(fates, n - 1).Recovered(fates[n - 1]).disk
    }
  }

  /** Wherever a replacement stops, the content is the old tree or the staged one, and the process knows which. */
  lemma ReplacedSound(d: Disk, f: WriteFates)
    requires d.stagings != [] && d.Live() && d.StagedTreeIsNewest() && f.RemovalFinishesOrDies()
    ensures var e, staged := d.Replaced(f), Some(d.stagings[|d.stagings| - 1]);
      && e.disk.Recoverable() && (e.outcome != Died ==> e.disk.Live())
      && (e.outcome == Done ==>
            e.disk.slot == staged && e.disk.backups == d.backups && e.disk.stagings == d.stagings[..|d.stagings| - 1])
      && (e.outcome == Raised ==> e.disk.Content() == d.Content() && e.disk.stagings == d.stagings)
      && (e.outcome == Died ==> e.disk.Content() == d.Content() || e.disk.Content() == staged)
  {
    SoundStops(d.slot, d.backups, d.clock, d.stagings[|d.stagings| - 1]);
    if d.slot.Some? && f.moveOld.Renamed? && !f.commit.DiedBefore? && !f.commit.Refused? {
      CommittedSound(d, f.dropBackup);
    }
  }

  /** The old tree is away, the staged one in the slot, and the removal finishes or dies. */
  lemma CommittedSound(d: Disk, fate: Removal)
    requires d.stagings != [] && d.Live() && d.StagedTreeIsNewest() && d.slot.Some? && !fate.StuckPartly?
    ensures var c := d.MovedAway().Committed();
      && c.Recoverable() && c.DroppedLast(fate).disk.Recoverable() && c.DroppedLast(fate).disk.slot == c.slot
      && (fate.Removed? ==> c.DroppedLast(fate) == Ended(d.Committed(), Done) && d.Committed().Live())
      && (!fate.Removed? ==> c.DroppedLast(fate).outcome == Died)
  {
    SoundStops(d.slot, d.backups, d.clock, d.stagings[|d.stagings| - 1]);
    MovedBack(d.backups, d.slot.value);
  }

  lemma MovedBack(trees: seq<Tree>, t: Tree)
    ensures (trees + [t])[..|trees|] == trees && (trees + [t])[|trees|] == t
  {
  }

  /** Wherever a write stops, the content is the old tree or the whole new one. */
  lemma WrittenSound(d: Disk, content: nat, f: WriteFates)
    requires d.Live() && f.RemovalFinishesOrDies()
    ensures var e, made := d.Written(content, f), Some(Tree(content, true, d.clock));
      && e.disk.Recoverable() && (e.outcome != Died ==> e.disk.Live())
      && (e.outcome == Done ==> e.disk.slot == made && e.disk.backups == d.backups)
      && (e.outcome == Done || (e.outcome == Raised && f.dropStaging.Removed?) ==> e.disk.stagings == d.stagings)
      && (e.outcome == Raised ==> e.disk.Content() == d.Content())
      && (e.outcome == Died ==> e.disk.Content() == d.Content() || e.disk.Content() == made)
  {
    if f.stage.Staged? {
      ReplacedSound(d.Ready(content), f);
    }
  }

  /** A write over an occupied slot: what the fates of its operations decide. */
  lemma WrittenOver(d: Disk, content: nat, f: WriteFates)
    requires d.slot.Some?
    ensures var e, made := d.Written(content, f), Some(Tree(content, true, d.clock));
      && (f.Clean() ==>
            e.outcome == Done && e.disk.slot == made && e.disk.backups == d.backups && e.disk.clock == d.clock + 1)
      && (f.Commits() && f.dropBackup.StuckPartly? ==>
            && e.outcome != Done && e.disk.slot == made && e.disk.clock == d.clock + 2
            && e.disk.backups == d.backups + [d.slot.value.Partial(f.dropBackup.top, d.clock + 1)])
      && (f.Survives() && !f.Commits() ==>
            e.outcome == Raised && e.disk.slot == d.slot && e.disk.backups == d.backups && e.disk.clock >= d.clock)
      && (f.EmptiesSlot() ==>
            e.outcome != Done && e.disk.slot.None? && e.disk.backups == d.backups + [d.slot.value])
  {
    MovedBack(d.backups, d.slot.value);
    MovedBack(d.stagings, Tree(content, true, d.clock));
  }

  lemma {:induction false} BackupsSwept(d: Disk, fate: nat -> Removal, k: nat)
    requires d.slot.None? ==> d.backups == []
    ensures var e := d.SweptBackups(fate, k);
      && e.disk.Content() == d.Content() && e.disk.slot == d.slot && e.disk.stagings == d.stagings
      && (d.Recoverable() ==> e.disk.Recoverable())
      && (e.outcome == Done ==> e.disk.backups == [])
      && ((forall j: nat :: fate(j).Removed?) || d.backups == [] ==> e.outcome == Done)
    decreases |d.backups|
  {
    if d.backups != [] && fate(k).Removed? {
      BackupsSwept(d.(backups := d.backups[1..]), fate, k + 1);
    }
  }

  lemma {:induction false} StagingsSwept(d: Disk, fate: nat -> Removal, k: nat)
    ensures var e := d.SweptStagings(fate, k);
      && e.disk.(stagings := d.stagings) == d
      && (e.outcome == Done ==> e.disk.stagings == [])
      && ((forall j: nat :: fate(j).Removed?) || d.stagings == [] ==> e.outcome == Done)
    decreases |d.stagings|
  {
    if d.stagings != [] && fate(k).Removed? {
      StagingsSwept(d.(stagings := d.stagings[1..]), fate, k + 1);
    }
  }

  lemma SweptSound(d: Disk, f: RecoveryFates)
    requires d.slot.None? ==> d.backups == []
    ensures var e := d.Swept(f);
      && e.disk.Content() == d.Content() && (d.Recoverable() ==> e.disk.Recoverable())
      && (e.outcome == Done ==> e.disk.slot == d.slot && e.disk.backups == [] && e.disk.stagings == [])
      && ((forall k: nat :: f.dropBackup(k).Removed?) || d.backups == []
          ==> (forall k: nat :: f.dropStaging(k).Removed?) || d.stagings == [] ==> e.outcome == Done)
  {
    BackupsSwept(d, f.dropBackup, 0);
    StagingsSwept(d.SweptBackups(f.dropBackup, 0).disk, f.dropStaging, 0);
  }

  /** Recovery never changes the content, wherever it stops, and puts it in the slot when it finishes. */
  lemma RecoveredSound(d: Disk, f: RecoveryFates)
    ensures var e := d.Recovered(f);
      && e.disk.Content() == d.Content() && (d.Recoverable() ==> e.disk.Recoverable())
      && (e.outcome == Done ==> e.disk.slot == d.Content() && e.disk.backups == [] && e.disk.stagings == [])
      && (d.slot.None? && f.restore.Refused? && d.backups != [] ==> e.outcome == Raised)
      && ((f.restore.Renamed? || d.slot.Some?) && (forall k: nat :: f.dropBackup(k).Removed? && f.dropStaging(k).Removed?)
          ==> e.outcome == Done)
      && (d.backups == [] && d.stagings == [] ==> e.outcome == Done)
  {
    if d.slot.Some? || d.backups == [] {
      SweptSound(d, f);
    } else {
      SweptSound(d.Restored(), f);
    }
  }

  /** A tree in the slot, the last one committed, with a newer partial tree behind it or not. */
  predicate Occupied(d: Disk, content: nat, stuck: bool) {
    && d.slot.Some? && d.slot.value.whole && d.slot.value.content == content && d.slot.value.mtime < d.clock
    && AllBefore(d.backups, d.clock)
    && if stuck then PartialNewest(d.backups, d.slot.value.mtime) else AllBefore(d.backups, d.slot.value.mtime)
  }

  lemma StaysOccupied(d: Disk, w: Write, content: nat, stuck: bool)
    requires Occupied(d, content, stuck) && w.fates.Survives()
    ensures var e := d.Written(w.content, w.fates).disk;
      if w.fates.Commits() then Occupied(e, w.content, w.fates.dropBackup.StuckAtTop()) else Occupied(e, content, stuck)
  {
    WrittenOver(d, w.content, w.fates);
    var e := d.Written(w.content, w.fates).disk;
    if w.fates.Commits() && w.fates.dropBackup.StuckAtTop() {
      assert !e.backups[|d.backups|].whole;
    }
  }

  lemma {:induction false} WrittenAllOccupied(d: Disk, writes: seq<Write>, n: nat)
    requires d.slot.Some? && Occupied(d, d.slot.value.content, false) && n <= |writes|
    requires forall i | 0 <= i < |writes| :: writes[i].fates.Survives()
    ensures Occupied(d.WrittenAll(writes, n), LastCommitted(d.slot.value.content, writes[..n]), LastCommitStuck(writes[..n]))
  {
    if n > 0 {
      WrittenAllOccupied(d, writes, n - 1);
      OneMoreWrite(writes, n - 1);
      assert writes[..n][..n - 1] == writes[..n - 1];
      StaysOccupied(d.WrittenAll(writes, n - 1), writes[n - 1], LastCommitted(d.slot.value.content, writes[..n - 1]),
                    LastCommitStuck(writes[..n - 1]));
    }
  }

  class SlotDirectory {
    var slot: Option<Tree>
    var backups: seq<Tree>
    var stagings: seq<Tree>
    var clock: nat

    function Now(): Disk
      reads this
    {
      Disk(slot, backups, stagings, clock)
    }

    function Content(): Option<Tree>
      reads this
    {
      Now().Content()
    }

    predicate Recoverable()
      reads this
    {
      Now().Recoverable()
    }

    predicate Live()
      reads this
    {
      Now().Live()
    }

    predicate StagedTreeIsNewest()
      reads this
      requires stagings != []
    {
      Now().StagedTreeIsNewest()
    }

    constructor ()
      ensures Live() && slot.None? && backups == [] && stagings == [] && clock == 0
    {
      slot, backups, stagings, clock := None, [], [], 0;
    }

    /** `_replace_directory`, committing the newest staging tree. */
    method ReplaceDirectory(f: WriteFates) returns (o: Outcome)
      requires stagings != []
      modifies this
      ensures Ended(Now(), o) == old(Now()).Replaced(f)
      ensures old(Live() && StagedTreeIsNewest()) && f.RemovalFinishesOrDies() ==>
        && Recoverable() && (o != Died ==> Live())
        && (o == Done ==> slot == Some(old(stagings[|stagings| - 1])) && backups == old(backups)
                          && stagings == old(stagings[..|stagings| - 1]))
        && (o == Raised ==> Content() == old(Content()))
        && (o == Died ==> Content() == old(Content()) || Content() == Some(old(stagings[|stagings| - 1])))
      ensures o == Raised && f.RemovalFinishesOrDies() ==> stagings == old(stagings)
      ensures f.Clean() ==> o == Done
      ensures old(slot.Some?) && f.moveOld.Renamed? && f.commit.Renamed? && f.dropBackup.StuckPartly? ==>
        && o == Raised && slot == Some(old(stagings[|stagings| - 1]))
        && backups == old(backups) + [old(slot).value.Partial(f.dropBackup.top, old(clock))]
        && stagings == old(stagings[..|stagings| - 1]) && clock == old(clock) + 1
      ensures old(slot.Some?) && f.Clean() ==>
        && slot == Some(old(stagings[|stagings| - 1])) && backups == old(backups) && clock == old(clock)
        && stagings == old(stagings[..|stagings| - 1])
      ensures old(slot.Some?) && f.Survives() && f.stage.Staged? && !f.Commits() ==>
        o == Raised && slot == old(slot) && backups == old(backups) && stagings == old(stagings) && clock == old(clock)
      ensures old(slot.Some?) && f.EmptiesSlot() ==>
        && o != Done && slot.None? && backups == old(backups) + [old(slot).value] && clock == old(clock)
        && stagings == old(stagings)
    {
      if Live() && StagedTreeIsNewest() && f.RemovalFinishesOrDies() {
        ReplacedSound(Now(), f);
      }
      if slot.Some? {
        MovedBack(backups, slot.value);
      }
      o := ReplaceNow(f);
    }

    /** The steps of a replacement. */
    method ReplaceNow(f: WriteFates) returns (o: Outcome)
      requires stagings != []
      modifies this
      ensures Ended(Now(), o) == old(Now()).Replaced(f)
    {
      var staged := stagings[|stagings| - 1];
      var moved := false;
      o := Done;
      if slot.Some? {
        if f.moveOld.DiedBefore? {
          return Died;
        } else if f.moveOld.Refused? {
          o := Raised;
        } else {
          backups, slot, moved := backups + [slot.value], None, true;
          if f.moveOld.DiedAfter? {
            return Died;
          }
        }
      }
      if o == Done {
        if f.commit.DiedBefore? {
          return Died;
        } else if f.commit.Refused? {
          o := Raised;
        } else {
          slot, stagings := Some(staged), stagings[..|stagings| - 1];
          if f.commit.DiedAfter? {
            return Died;
          }
        }
      }
      if o == Raised && moved && slot.None? {
        if f.rollback.DiedBefore? {
          return Died;
        } else if !f.rollback.Refused? {
          slot, backups, moved := Some(backups[|backups| - 1]), backups[..|backups| - 1], false;
          assert backups == old(backups);
          if f.rollback.DiedAfter? {
            return Died;
          }
        }
      }
      if moved && slot.Some? {
        o := DropLastBackup(f.dropBackup);
      }
    }

    /** `shutil.rmtree(backup)` in the `finally` clause. */
    method DropLastBackup(fate: Removal) returns (o: Outcome)
      requires backups != []
      modifies `backups, `clock
      ensures Ended(Now(), o) == old(Now()).DroppedLast(fate)
      ensures clock >= old(clock)
      ensures fate.Removed? ==> o == Done && backups == old(backups[..|backups| - 1]) && clock == old(clock)
      ensures fate.DiedUntouched? ==> o == Died && backups == old(backups) && clock == old(clock)
      ensures fate.DiedPartly? || fate.StuckPartly? ==>
        && o == (if fate.DiedPartly? then Died else Raised) && clock == old(clock) + 1
        && backups == old(backups[..|backups| - 1])
                      + [old(backups[|backups| - 1]).Partial(fate.top, old(clock))]
    {
      var last := backups[|backups| - 1];
      match fate
      case Removed =>
        backups := backups[..|backups| - 1];
        o := Done;
      case DiedUntouched =>
        o := Died;
      case DiedPartly(top) =>
        backups := backups[..|backups| - 1] + [last.Partial(top, clock)];
        clock, o := clock + 1, Died;
      case StuckPartly(top) =>
        backups := backups[..|backups| - 1] + [last.Partial(top, clock)];
        clock, o := clock + 1, Raised;
    }

    /** `_write_slot`: after any outcome the slot's content is the old tree or the whole new one. */
    method WriteSlot(content: nat, f: WriteFates) returns (o: Outcome)
      modifies this
      ensures Ended(Now(), o) == old(Now()).Written(content, f)
      ensures f.Clean() ==> o == Done
      ensures old(Live()) && f.RemovalFinishesOrDies() ==>
        && Recoverable() && (o != Died ==> Live())
        && (o == Done ==> slot == Some(Tree(content, true, old(clock))) && backups == old(backups))
        && (o == Done || (o == Raised && f.dropStaging.Removed?) ==> stagings == old(stagings))
        && (o == Raised ==> Content() == old(Content()))
        && (o == Died ==> Content() == old(Content()) || Content() == Some(Tree(content, true, old(clock))))
      ensures old(slot.Some?) && f.Clean() ==>
        slot == Some(Tree(content, true, old(clock))) && backups == old(backups) && clock == old(clock) + 1
      ensures old(slot.Some?) && f.Commits() && f.dropBackup.StuckPartly? ==>
        && o != Done && slot == Some(Tree(content, true, old(clock)))
        && backups == old(backups) + [old(slot).value.Partial(f.dropBackup.top, old(clock) + 1)]
        && clock == old(clock) + 2
      ensures old(slot.Some?) && f.Survives() && !f.Commits() ==>
        o == Raised && slot == old(slot) && backups == old(backups) && clock >= old(clock)
      ensures old(slot.Some?) && f.EmptiesSlot() ==>
        o != Done && slot.None? && backups == old(backups) + [old(slot).value]
    {
      if Live() && f.RemovalFinishesOrDies() {
        WrittenSound(Now(), content, f);
      }
      if slot.Some? {
        WrittenOver(Now(), content, f);
      }
      o := WriteNow(content, f);
    }

    /** The steps of a write. */
    method WriteNow(content: nat, f: WriteFates) returns (o: Outcome)
      modifies this
      ensures Ended(Now(), o) == old(Now()).Written(content, f)
    {
      var before := |stagings|;
      stagings := stagings + [Tree(content, false, clock)];
      if f.stage.StagingDied? {
        return Died;
      }
      o := Raised;
      if f.stage.Staged? {
        stagings, clock := stagings[..before] + [Tree(content, true, clock)], clock + 1;
        assert Now() == old(Now()).Ready(content);
        o := ReplaceNow(f);
      }
      if o == Raised {
        o := Unstage(before, f.dropStaging);
      }
    }

    /** The exception handler removes whatever is left of the staging tree. */
    method Unstage(before: nat, fate: Removal) returns (o: Outcome)
      modifies `stagings
      ensures Ended(Now(), o) == old(Now()).Unstaged(before, fate)
    {
      o := Raised;
      if |stagings| > before {
        if fate.Removed? {
          stagings := stagings[..before];
        } else {
          if !fate.DiedUntouched? {
            stagings := stagings[..before] + [stagings[before].(whole := false)];
          }
          if fate.Dies() {
            o := Died;
          }
        }
      }
    }

    /**
     `_recover_interrupted_replacements` for one slot.  It may itself die
     anywhere; the content is never changed, and once it finishes the content
     is in the slot and nothing else is left.
     */
    method Recover(f: RecoveryFates) returns (o: Outcome)
      modifies this
      ensures Ended(Now(), o) == old(Now()).Recovered(f)
      ensures Content() == old(Content())
      ensures old(Recoverable()) ==> Recoverable() && (o == Done ==> Live())
      ensures o == Done ==> slot == old(Content()) && backups == [] && stagings == []
      ensures old(slot.None?) && f.restore.Refused? && old(backups) != [] ==> o == Raised
      ensures (f.restore.Renamed? || old(slot.Some?)) && (forall k: nat :: f.dropBackup(k).Removed? && f.dropStaging(k).Removed?)
              ==> o == Done
      ensures old(backups) == [] && old(stagings) == [] ==> o == Done
    {
      RecoveredSound(Now(), f);
      if slot.None? && backups != [] {
        if f.restore.DiedBefore? {
          return Died;
        } else if f.restore.Refused? {
          return Raised;
        }
        var at := PositionOfNewest(backups);
        slot, backups := Some(backups[at]), backups[..at] + backups[at + 1..];
        if f.restore.DiedAfter? {
          return Died;
        }
      }
      o := DropBackups(f.dropBackup);
      if o == Done {
        o := DropStagings(f.dropStaging);
      }
    }

    method DropStagings(fate: nat -> Removal) returns (o: Outcome)
      modifies `stagings
      ensures Ended(Now(), o) == old(Now()).SweptStagings(fate, 0)
    {
      var k := 0;
      while stagings != []
        invariant Now().SweptStagings(fate, k) == old(Now()).SweptStagings(fate, 0)
        decreases |stagings|
      {
        if !fate(k).Removed? {
          return if fate(k).StuckPartly? then Raised else Died;
        }
        stagings, k := stagings[1..], k + 1;
      }
      return Done;
    }

    method DropBackups(fate: nat -> Removal) returns (o: Outcome)
      requires slot.None? ==> backups == []
      modifies `backups, `clock
      ensures Ended(Now(), o) == old(Now()).SweptBackups(fate, 0)
      ensures old(Recoverable()) ==> Recoverable()
      ensures Content() == old(Content())
      ensures o == Done ==> backups == []
      ensures (forall k: nat :: fate(k).Removed?) || old(backups) == [] ==> o == Done
    {
      BackupsSwept(Now(), fate, 0);
      var k := 0;
      while backups != []
        invariant Now().SweptBackups(fate, k) == old(Now()).SweptBackups(fate, 0)
        decreases |backups|
      {
        match fate(k)
        case Removed =>
          backups, k := backups[1..], k + 1;
        case DiedUntouched =>
          return Died;
        case DiedPartly(top) =>
          backups := [backups[0].Partial(top, clock)] + backups[1..];
          clock := clock + 1;
          return Died;
        case StuckPartly(top) =>
          backups := [backups[0].Partial(top, clock)] + backups[1..];
          clock := clock + 1;
          return Raised;
      }
      return Done;
    }

    /**
     A write that dies anywhere, then any number of recoveries that die or
     raise, then one that finishes: the slot holds exactly the old tree or the
     whole new one, and is empty only if it was empty before.
     */
    method CrashAndRecover(content: nat, f: WriteFates, broken: seq<RecoveryFates>, last: RecoveryFates)
      returns (o: Outcome, finished: bool)
      requires Live() && f.RemovalFinishesOrDies()
      modifies this
      ensures Now() == old(Now()).Written(content, f).disk.RecoveredAll(broken, |broken|).Recovered(last).disk
      ensures o == old(Now()).Written(content, f).outcome
      ensures finished <==>
        old(Now()).Written(content, f).disk.RecoveredAll(broken, |broken|).Recovered(last).outcome == Done
      ensures finished ==> slot == old(Content()) || slot == Some(Tree(content, true, old(clock)))
      ensures finished && o == Done ==> slot == Some(Tree(content, true, old(clock)))
      ensures finished && o == Raised ==> slot == old(Content())
      ensures finished ==> Live() && backups == [] && stagings == []
      ensures finished && slot.Some? ==> slot.value.whole
    {
      o := WriteSlot(content, f);
      RecoverAll(broken);
      var end := Recover(last);
      finished := end == Done;
    }

    /**
     Any writes that leave a tree in the slot, then one that empties it, then
     recoveries until one finishes: a whole tree is recovered exactly when the
     last commit before did not get stuck removing its predecessor's top level,
     and then it is the tree last committed.
     */
    method WritesThenCrash(writes: seq<Write>, last: Write, broken: seq<RecoveryFates>, end: RecoveryFates)
      returns (finished: bool)
      requires Live() && slot.Some?
      requires forall i | 0 <= i < |writes| :: writes[i].fates.Survives()
      requires last.fates.EmptiesSlot()
      modifies this
      ensures Now() == old(Now()).WrittenAll(writes, |writes|).Written(last.content, last.fates).disk
                         .RecoveredAll(broken, |broken|).Recovered(end).disk
      ensures finished <==>
        old(Now()).WrittenAll(writes, |writes|).Written(last.content, last.fates).disk
          .RecoveredAll(broken, |broken|).Recovered(end).outcome == Done
      ensures finished ==> slot.Some? && (slot.value.whole <==> !LastCommitStuck(writes))
      ensures finished && slot.value.whole ==> slot.value.content == LastCommitted(old(slot).value.content, writes)
    {
      WriteAll(writes);
      NewestMovedAway(backups, slot.value);
      var died := WriteSlot(last.content, last.fates);
      RecoverAll(broken);
      var o := Recover(end);
      finished := o == Done;
    }

    /** Writes that leave a tree in the slot: the last one committed, with a newer partial tree behind it or not. */
    method WriteAll(writes: seq<Write>)
      requires slot.Some? && Occupied(Now(), slot.value.content, false)
      requires forall i | 0 <= i < |writes| :: writes[i].fates.Survives()
      modifies this
      ensures Now() == old(Now()).WrittenAll(writes, |writes|)
      ensures Occupied(Now(), LastCommitted(old(slot).value.content, writes), LastCommitStuck(writes))
    {
      WrittenAllOccupied(Now(), writes, |writes|);
      for i := 0 to |writes|
        invariant Now() == old(Now()).WrittenAll(writes, i)
      {
        var ignored := WriteNow(writes[i].content, writes[i].fates);
      }
      assert writes[..|writes|] == writes;
    }

    /** Recoveries, however they end, leave the content alone. */
    method RecoverAll(fates: seq<RecoveryFates>)
      modifies this
      ensures Now() == old(Now()).RecoveredAll(fates, |fates|)
      ensures Content() == old(Content()) && (old(Recoverable()) ==> Recoverable())
    {
      for i := 0 to |fates|
        invariant Now() == old(Now()).RecoveredAll(fates, i)
        invariant Content() == old(Content()) && (old(Recoverable()) ==> Recoverable())
      {
        var ignored := Recover(fates[i]);
      }
    }

    /** Recovery of a recovered directory changes nothing. */
    method RecoverTwice(f: RecoveryFates, g: RecoveryFates) returns (first: Outcome, second: Outcome)
      modifies this
      ensures first == old(Now()).Recovered(f).outcome
      ensures var once := old(Now()).Recovered(f).disk;
        && Now() == (if first == Done then once.Recovered(g).disk else once)
        && second == (if first == Done then once.Recovered(g).outcome else Done)
      ensures first == Done ==> second == Done && slot == old(Content()) && backups == [] && stagings == []
    {
      first := Recover(f);
      second := Done;
      if first == Done {
        second := Recover(g);
      }
    }
  }

  method PositionOfNewest(trees: seq<Tree>) returns (at: nat)
    requires trees != []
    ensures at == IndexOfNewest(trees) && trees[at] == Newest(trees)
  {
    at := 0;
    while trees[at] != Newest(trees)
      invariant at <= IndexOfNewest(trees)
      decreases |trees| - at
    {
      at := at + 1;
    }
  }

  /**
   Two writes after a first checkpoint, the second dying between its renames:
   the recovered slot is a whole tree exactly when the first write's removal of
   the old backup did not get stuck half-way at its top level.
   */
  method RecoveredWholeIff(first: nat, second: nat, third: nat, removal: Removal) returns (d: SlotDirectory)
    requires !removal.Dies()
    ensures d.slot.Some?
    ensures d.slot.value.whole <==> !removal.StuckAtTop()
    ensures d.slot.value.content == if removal.StuckAtTop() then first else second
  {
    d := new SlotDirectory();
    var clean := WriteFates(Staged, Renamed, Renamed, Renamed, Removed, Removed);
    var o := d.WriteSlot(first, clean);
    o := d.WriteSlot(second, clean.(dropBackup := removal));
    o := d.WriteSlot(third, clean.(moveOld := DiedAfter));
    o := d.Recover(RecoveryFates(Renamed, _ => Removed, _ => Removed));
  }
}
