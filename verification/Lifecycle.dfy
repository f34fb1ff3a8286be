/** Archive, restore and delete: a vault step, then a database step, either of which may fail. */
module Lifecycle {
  import opened Base
  import opened Vault
  import opened Store

  /** Where a file lives below the active root or below `_archive/`. */
  datatype Path = Path(kind: string, slug: string)

  datatype Call = Archive | Restore | Delete

  /** The step that fails, if any; DbFails also stands for a daemon that dies between the steps. */
  datatype Fault = NoFault | LoadFails | VaultFails | DbFails

  datatype Outcome =
    | Done
    | Conflict          // another writer holds the entity
    | NoSuchEntity      // no row
    | NotArchived       // delete of an active entity
    | BadId             // the id names no vault path
    | NoSuchFile        // row without a file in either layout
    | LoadError | VaultError | DbError

  /** slugFromID. */
  function SlugOf(id: string): Option<string> {
    var i := IndexOfColon(id);
    if i >= |id| - 1 || '/' in id[i + 1..] || '\\' in id[i + 1..] then None else Some(id[i + 1..])
  }

  function KindDir(kind: string): string {
    if kind == "task" then "tasks" else kind
  }

  /** The path depends on the row's kind and on what follows the first colon of the id. */
  function PathOf(kind: string, id: string): Option<Path> {
    match SlugOf(id) case None => None case Some(slug) => Some(Path(KindDir(kind), slug))
  }

  // ---------------------------------------------------------------- one entity's view

  /** Everything a call on one entity looks at: its row and the two places of its file. */
  datatype View = View(row: Option<Row>, active: Option<string>, archived: Option<string>)

  /** The vault half of a transition; the move is a rename, which replaces its target. */
  function Moved(v: View, archiving: bool): Option<View> {
    if archiving then
      if v.active.Some? then Some(v.(active := None, archived := v.active))
      else if v.archived.Some? then Some(v) else None
    else
      if v.archived.Some? then Some(v.(active := v.archived, archived := None))
      else if v.active.Some? then Some(v) else None
  }

  function Transitioned(v: View, archiving: bool, fault: Fault): (View, Outcome)
    requires v.row.Some?
  {
    match Moved(v, archiving)
    case None => (v, if fault == VaultFails then VaultError else NoSuchFile)
    case Some(moved) =>
      if fault == VaultFails then (v, VaultError)
      else if fault == DbFails then (moved, DbError)
      else (moved.(row := Some(v.row.value.(archived := archiving))), Done)
  }

  function Deleted(v: View, fault: Fault): (View, Outcome)
    requires v.row.Some?
  {
    if !v.row.value.archived then (v, NotArchived)
    else if fault == VaultFails then (v, VaultError)
    else
      var gone := v.(archived := None);
      if fault == DbFails then (gone, DbError) else (gone.(row := None), Done)
  }

  /** A call that got the lock, on a well-formed id. */
  function Step(v: View, call: Call, fault: Fault): (View, Outcome) {
    if fault == LoadFails then (v, LoadError)
    else if v.row.None? then (v, NoSuchEntity)
    else match call
      case Archive => Transitioned(v, true, fault)
      case Restore => Transitioned(v, false, fault)
      case Delete => Deleted(v, fault)
  }

  // ---------------------------------------------------------------- the whole store

  datatype Shelf = Shelf(active: map<Path, string>, archive: map<Path, string>, rows: map<string, Row>)

  function Put<K, V>(m: map<K, V>, k: K, v: Option<V>): map<K, V> {
    match v case None => m - {k} case Some(x) => m[k := x]
  }

  function ViewAt(s: Shelf, id: string, p: Path): View {
    View(Lookup(s.rows, id), Lookup(s.active, p), Lookup(s.archive, p))
  }

  function WithView(s: Shelf, id: string, p: Path, v: View): Shelf {
    Shelf(Put(s.active, p, v.active), Put(s.archive, p, v.archived), Put(s.rows, id, v.row))
  }

  lemma PutSame<K, V>(m: map<K, V>, k: K)
    ensures Put(m, k, Lookup(m, k)) == m
  {
  }

  /** The path a call on `id` would touch; None when there is no row or the id names no path. */
  function Target(s: Shelf, id: string): Option<Path> {
    if id in s.rows && s.rows[id].kind != "" then PathOf(s.rows[id].kind, id) else None
  }

  /** A call that got the lock. */
  function Apply(s: Shelf, id: string, call: Call, fault: Fault): (Shelf, Outcome) {
    if fault == LoadFails then (s, LoadError)
    else if id !in s.rows then (s, NoSuchEntity)
    else if call == Delete && !s.rows[id].archived then (s, NotArchived)
    else if s.rows[id].kind == "" then (s, VaultError)
    else match Target(s, id)
      case None => (s, BadId)
      case Some(p) =>
        var r := Step(ViewAt(s, id, p), call, fault);
        (WithView(s, id, p, r.0), r.1)
  }

  // ---------------------------------------------------------------- the handlers

  datatype MoveResult = MoveOk | MoveMissing | MoveFailed

  /** The two layouts of the vault, beside the catalog. */
  class Shelves {
    const db: Catalog
    var active: map<Path, string>
    var archive: map<Path, string>

    constructor (db: Catalog, active: map<Path, string>, archive: map<Path, string>)
      ensures this.db == db && this.active == active && this.archive == archive
    {
      this.db, this.active, this.archive := db, active, archive;
    }

    function State(): Shelf
      reads this, db
    {
      Shelf(active, archive, db.rows)
    }

    /** moveBetweenArchive: a missing source with an existing target is already done. */
    method MoveBetweenArchive(p: Path, archiving: bool, fails: bool) returns (r: MoveResult)
      modifies this`active, this`archive
      ensures var v := View(None, Lookup(old(active), p), Lookup(old(archive), p));
              && r == (if fails then MoveFailed else if Moved(v, archiving).None? then MoveMissing else MoveOk)
              && var w := if r == MoveOk then Moved(v, archiving).value else v;
                 active == Put(old(active), p, w.active) && archive == Put(old(archive), p, w.archived)
    {
      if fails {
        return MoveFailed;
      }
      if archiving {
        if p !in active {
          return if p in archive then MoveOk else MoveMissing;
        }
        archive := archive[p := active[p]];
        active := active - {p};
      } else {
        if p !in archive {
          return if p in active then MoveOk else MoveMissing;
        }
        active := active[p := archive[p]];
        archive := archive - {p};
      }
      r := MoveOk;
    }

    method Transition(id: string, archiving: bool, holder: string, fault: Fault) returns (outcome: Outcome)
      modifies this`active, this`archive, db`rows, db`locks
      ensures outcome == Conflict <==> id in old(db.locks)
      ensures db.locks == old(db.locks)
      ensures outcome == Conflict ==> State() == old(State())
      ensures outcome != Conflict ==>
                (State(), outcome) == Apply(old(State()), id, if archiving then Archive else Restore, fault)
    {
      var acquired := db.Acquire(id, holder);
      if !acquired {
        return Conflict;
      }
      outcome := TransitionLocked(id, archiving, fault);
      db.Release(id);
    }

    method TransitionLocked(id: string, archiving: bool, fault: Fault) returns (outcome: Outcome)
      modifies this`active, this`archive, db`rows
      ensures (State(), outcome) == Apply(old(State()), id, if archiving then Archive else Restore, fault)
      ensures outcome != Conflict
    {
      if fault == LoadFails {
        return LoadError;
      }
      if id !in db.rows {
        return NoSuchEntity;
      }
      var kind := db.rows[id].kind;
      if kind == "" {
        return VaultError;
      }
      var path := PathOf(kind, id);
      if path.None? {
        return BadId;
      }
      PutSame(active, path.value);
      PutSame(archive, path.value);
      PutSame(db.rows, id);
      var moved := MoveBetweenArchive(path.value, archiving, fault == VaultFails);
      if moved == MoveFailed {
        return VaultError;
      }
      if moved == MoveMissing {
        return NoSuchFile;
      }
      if fault == DbFails {
        return DbError;
      }
      db.SetArchived(id, archiving);
      outcome := Done;
    }

    method Destroy(id: string, holder: string, fault: Fault) returns (outcome: Outcome)
      modifies this`archive, db`rows, db`edges, db`locks
      ensures outcome == Conflict <==> id in old(db.locks)
      ensures db.locks == old(db.locks)
      ensures outcome == Conflict ==> State() == old(State())
      ensures outcome != Conflict ==> (State(), outcome) == Apply(old(State()), id, Delete, fault)
      ensures db.edges == if outcome == Done then Unlinked(old(db.edges), id) else old(db.edges)
    {
      var acquired := db.Acquire(id, holder);
      if !acquired {
        return Conflict;
      }
      outcome := DestroyLocked(id, fault);
      db.Release(id);
    }

    method DestroyLocked(id: string, fault: Fault) returns (outcome: Outcome)
      modifies this`archive, db`rows, db`edges
      ensures (State(), outcome) == Apply(old(State()), id, Delete, fault)
      ensures db.edges == if outcome == Done then Unlinked(old(db.edges), id) else old(db.edges)
      ensures outcome != Conflict
    {
      if fault == LoadFails {
        return LoadError;
      }
      if id !in db.rows {
        return NoSuchEntity;
      }
      if !db.rows[id].archived {
        return NotArchived;
      }
      var kind := db.rows[id].kind;
      if kind == "" {
        return VaultError;
      }
      var path := PathOf(kind, id);
      if path.None? {
        return BadId;
      }
      PutSame(active, path.value);
      PutSame(archive, path.value);
      PutSame(db.rows, id);
      if fault == VaultFails {
        return VaultError;
      }
      // A missing file is tolerated: the row still has to go.
      archive := archive - {path.value};
      if fault == DbFails {
        return DbError;
      }
      db.DeleteEntityCascade(id);
      outcome := Done;
    }
  }

  // ---------------------------------------------------------------- what a call does to files

  /** The contents stored for a path, in whichever layout. */
  function Contents(s: Shelf, p: Path): multiset<string> {
    Held(Lookup(s.active, p)) + Held(Lookup(s.archive, p))
  }

  function Held(file: Option<string>): (r: multiset<string>)
    ensures |r| == if file.Some? then 1 else 0
  {
    match file case None => multiset{} case Some(content) => multiset{content}
  }

  /** The call reaches its vault step, on this path. */
  predicate Reaches(s: Shelf, id: string, fault: Fault, p: Path) {
    Target(s, id) == Some(p) && fault != LoadFails && fault != VaultFails
  }

  /** Deleting an archived row whose file is in the archive layout. */
  predicate Destroys(s: Shelf, id: string, call: Call, fault: Fault, p: Path) {
    Reaches(s, id, fault, p) && call == Delete && s.rows[id].archived && p in s.archive
  }

  /** Moving a file onto another one. */
  predicate Overwrites(s: Shelf, id: string, call: Call, fault: Fault, p: Path) {
    Reaches(s, id, fault, p) && call != Delete && p in s.active && p in s.archive
  }

  /** Whatever fails, a call changes what is stored for a path exactly when it destroys an archived
      file or moves one file over another. */
  lemma ContentsChangeIff(s: Shelf, id: string, call: Call, fault: Fault, p: Path)
    ensures Contents(Apply(s, id, call, fault).0, p) != Contents(s, p)
       <==> Destroys(s, id, call, fault, p) || Overwrites(s, id, call, fault, p)
  {
    if Target(s, id) == Some(p) {
      ApplyAtTarget(s, id, call, fault, p);
      StepContentsIff(ViewAt(s, id, p), call, fault);
    } else {
      ApplyOffTarget(s, id, call, fault, p);
    }
  }

  /** The view's file count drops. */
  predicate Lossy(v: View, call: Call, fault: Fault) {
    && v.row.Some? && fault != LoadFails && fault != VaultFails && v.archived.Some?
    && if call == Delete then v.row.value.archived else v.active.Some?
  }

  lemma StepContentsIff(v: View, call: Call, fault: Fault)
    ensures var w := Step(v, call, fault).0;
            Held(w.active) + Held(w.archived) != Held(v.active) + Held(v.archived) <==> Lossy(v, call, fault)
  {
    var w := Step(v, call, fault).0;
    if Lossy(v, call, fault) {
      LossyStep(v, call, fault);
      HeldSize(v.active, v.archived);
      HeldSize(w.active, w.archived);
    } else {
      KeepingStep(v, call, fault);
    }
  }

  function Files(v: View): nat {
    (if v.active.Some? then 1 else 0) + if v.archived.Some? then 1 else 0
  }

  lemma LossyStep(v: View, call: Call, fault: Fault)
    requires Lossy(v, call, fault)
    ensures Files(Step(v, call, fault).0) == Files(v) - 1
  {
  }

  /** A step that loses nothing leaves the file or moves it to the empty place. */
  lemma KeepingStep(v: View, call: Call, fault: Fault)
    requires !Lossy(v, call, fault)
    ensures var w := Step(v, call, fault).0;
            || (w.active == v.active && w.archived == v.archived)
            || (w.active == v.archived && w.archived == v.active)
  {
  }

  lemma HeldSize(a: Option<string>, b: Option<string>)
    ensures |Held(a) + Held(b)| == (if a.Some? then 1 else 0) + if b.Some? then 1 else 0
  {
  }

  lemma ApplyOffTarget(s: Shelf, id: string, call: Call, fault: Fault, p: Path)
    requires Target(s, id) != Some(p)
    ensures Lookup(Apply(s, id, call, fault).0.active, p) == Lookup(s.active, p)
    ensures Lookup(Apply(s, id, call, fault).0.archive, p) == Lookup(s.archive, p)
  {
  }

  lemma ApplyAtTarget(s: Shelf, id: string, call: Call, fault: Fault, p: Path)
    requires Target(s, id) == Some(p)
    ensures ViewAt(Apply(s, id, call, fault).0, id, p) == Step(ViewAt(s, id, p), call, fault).0
    ensures Apply(s, id, call, fault).1 == Step(ViewAt(s, id, p), call, fault).1
  {
  }

  /** Delete never touches the active layout. */
  lemma DeleteKeepsActive(s: Shelf, id: string, fault: Fault)
    ensures Apply(s, id, Delete, fault).0.active == s.active
  {
  }

  /** No path has a file in both layouts. */
  ghost predicate Single(s: Shelf) {
    forall p :: p in s.active ==> p !in s.archive
  }

  lemma StepKeepsSingle(s: Shelf, id: string, call: Call, fault: Fault)
    requires Single(s)
    ensures Single(Apply(s, id, call, fault).0)
  {
  }

  datatype Move = Move(id: string, call: Call, fault: Fault)

  function After(s: Shelf, moves: seq<Move>): Shelf {
    if moves == [] then s
    else
      var last := moves[|moves| - 1];
      Apply(After(s, moves[..|moves| - 1]), last.id, last.call, last.fault).0
  }

  /** The call takes something away from what is stored for `p`. */
  predicate Loses(s: Shelf, m: Move, p: Path) {
    Destroys(s, m.id, m.call, m.fault, p) || Overwrites(s, m.id, m.call, m.fault, p)
  }

  /** Some call of the run does: the last, or one before. */
  predicate LostIn(s: Shelf, moves: seq<Move>, p: Path) {
    moves != [] &&
    (LostIn(s, moves[..|moves| - 1], p) || Loses(After(s, moves[..|moves| - 1]), moves[|moves| - 1], p))
  }

  /** What is stored for a path never grows, and a call that changes it makes it smaller. */
  lemma ContentsShrink(s: Shelf, m: Move, p: Path)
    ensures var after := Apply(s, m.id, m.call, m.fault).0;
            if Loses(s, m, p) then |Contents(after, p)| < |Contents(s, p)| else Contents(after, p) == Contents(s, p)
  {
    ContentsChangeIff(s, m.id, m.call, m.fault, p);
    if Loses(s, m, p) {
      ApplyAtTarget(s, m.id, m.call, m.fault, p);
      LossyStep(ViewAt(s, m.id, p), m.call, m.fault);
      var after := Apply(s, m.id, m.call, m.fault).0;
      HeldSize(Lookup(s.active, p), Lookup(s.archive, p));
      HeldSize(Lookup(after.active, p), Lookup(after.archive, p));
    }
  }

  /** Over any run on any entities with any step failing, from any start, exactly: what is stored for
      a path is no longer what it was if and only if some call destroyed an archived file there or
      moved one file over another. */
  lemma {:induction false} FilesOverRun(s: Shelf, moves: seq<Move>, p: Path)
    ensures |Contents(After(s, moves), p)| <= |Contents(s, p)|
    ensures LostIn(s, moves, p) ==> |Contents(After(s, moves), p)| < |Contents(s, p)|
    ensures Contents(After(s, moves), p) != Contents(s, p) <==> LostIn(s, moves, p)
  {
    if moves == [] {
    } else {
      var init, last := moves[..|moves| - 1], moves[|moves| - 1];
      FilesOverRun(s, init, p);
      ContentsShrink(After(s, init), last, p);
    }
  }

  /** Some call of the run destroyed an archived file at `p`. */
  predicate DestroyedIn(s: Shelf, moves: seq<Move>, p: Path) {
    moves != [] &&
    var init, last := moves[..|moves| - 1], moves[|moves| - 1];
    DestroyedIn(s, init, p) || Destroys(After(s, init), last.id, last.call, last.fault, p)
  }

  /** Without twins, a destroyed file leaves nothing behind, and no call puts anything back. */
  lemma DestroyEmpties(s: Shelf, id: string, call: Call, fault: Fault, p: Path)
    requires Single(s)
    ensures |Contents(s, p)| <= 1
    ensures Destroys(s, id, call, fault, p) ==>
              Contents(s, p) != multiset{} && Contents(Apply(s, id, call, fault).0, p) == multiset{}
    ensures Contents(s, p) == multiset{} ==> Contents(Apply(s, id, call, fault).0, p) == multiset{}
  {
    ContentsChangeIff(s, id, call, fault, p);
    HeldSize(Lookup(s.active, p), Lookup(s.archive, p));
    if Destroys(s, id, call, fault, p) {
      ApplyAtTarget(s, id, call, fault, p);
      var after := Apply(s, id, call, fault).0;
      HeldSize(Lookup(after.active, p), Lookup(after.archive, p));
    }
  }

  /** As long as no file had a twin to begin with, that means: if and only if a delete of an archived
      row took it out of the archive; and then nothing is stored there any more. */
  lemma {:induction false} SingleFilesOverRun(s: Shelf, moves: seq<Move>, p: Path)
    requires Single(s)
    ensures Single(After(s, moves))
    ensures Contents(After(s, moves), p) != Contents(s, p) <==> DestroyedIn(s, moves, p)
    ensures DestroyedIn(s, moves, p) ==> Contents(After(s, moves), p) == multiset{} && Contents(s, p) != multiset{}
  {
    if moves == [] {
    } else {
      var init, last := moves[..|moves| - 1], moves[|moves| - 1];
      SingleFilesOverRun(s, init, p);
      StepKeepsSingle(After(s, init), last.id, last.call, last.fault);
      ContentsChangeIff(After(s, init), last.id, last.call, last.fault, p);
      DestroyEmpties(After(s, init), last.id, last.call, last.fault, p);
    }
  }

  /** With a file in both layouts, archiving loses the older one. */
  lemma ArchiveOverwritesWitness()
    ensures var p := Path("k", "x");
            var s := Shelf(map[p := "new"], map[p := "old"], map["k:x" := Row("k", None, map[], true)]);
            var r := Apply(s, "k:x", Archive, NoFault);
            r.1 == Done && Contents(s, p) == multiset{"new", "old"} && Contents(r.0, p) == multiset{"new"}
  {
    var id := "k:x";
    assert id[0] == 'k' && id[1] == ':' && id[1..][0] == ':';
    assert IndexOfColon(id) == 1 && id[2..] == "x";
  }

  // ---------------------------------------------------------------- retrying

  /** Repeating an interrupted call with nothing failing ends where the first try would have. */
  lemma RetryReaches(v: View, call: Call, fault: Fault)
    requires fault != NoFault
    ensures Step(Step(v, call, fault).0, call, NoFault) == Step(v, call, NoFault)
  {
  }

  /** A failed attempt of `call` on `id`, or a call that meets neither its row nor its path. */
  predicate Harmless(s: Shelf, m: Move, id: string, call: Call, p: Path) {
    || (m.id == id && m.call == call && m.fault != NoFault)
    || (m.id != id && Target(s, m.id) != Some(p))
  }

  lemma ApplyElsewhere(s: Shelf, m: Move, id: string, p: Path)
    requires m.id != id && Target(s, m.id) != Some(p)
    ensures ViewAt(Apply(s, m.id, m.call, m.fault).0, id, p) == ViewAt(s, id, p)
  {
  }

  /** One such step leaves the entity where a clean attempt ends in the same state. */
  lemma HarmlessStep(s: Shelf, m: Move, id: string, call: Call, p: Path)
    requires Harmless(s, m, id, call, p) && Located(s, id, p)
    ensures var t := Apply(s, m.id, m.call, m.fault).0;
            Located(t, id, p) && Step(ViewAt(t, id, p), call, NoFault) == Step(ViewAt(s, id, p), call, NoFault)
  {
    if m.id == id {
      ApplyAtTarget(s, id, call, m.fault, p);
      RetryReaches(ViewAt(s, id, p), call, m.fault);
      StepKeepsRow(ViewAt(s, id, p), call, m.fault);
      var t := Apply(s, m.id, m.call, m.fault).0;
      assert ViewAt(t, id, p).row == ViewAt(s, id, p).row;
    } else {
      ApplyElsewhere(s, m, id, p);
      var t := Apply(s, m.id, m.call, m.fault).0;
      assert ViewAt(t, id, p).row == ViewAt(s, id, p).row;
    }
  }

  /** The entity has a row, and `p` is its path. */
  predicate Located(s: Shelf, id: string, p: Path) {
    Target(s, id) == Some(p)
  }

  /** An interrupted call never touches the row. */
  lemma StepKeepsRow(v: View, call: Call, fault: Fault)
    requires fault != NoFault
    ensures Step(v, call, fault).0.row == v.row
  {
  }

  /** Any number of interrupted attempts, with calls on other entities in between, and then one
      that goes through: outcome, row and files are as if the first attempt had. */
  lemma {:induction false} RetryAmidOthers(s: Shelf, moves: seq<Move>, id: string, call: Call, p: Path)
    requires Located(s, id, p)
    requires forall i :: 0 <= i < |moves| ==> Harmless(After(s, moves[..i]), moves[i], id, call, p)
    ensures Located(After(s, moves), id, p)
    ensures Step(ViewAt(After(s, moves), id, p), call, NoFault) == Step(ViewAt(s, id, p), call, NoFault)
  {
    if moves == [] {
    } else {
      var init, last := moves[..|moves| - 1], moves[|moves| - 1];
      assert forall i :: 0 <= i < |init| ==> init[i] == moves[i] && init[..i] == moves[..i];
      RetryAmidOthers(s, init, id, call, p);
      HarmlessStep(After(s, init), last, id, call, p);
    }
  }

  /** A transition that reports success left exactly one file, in the layout its row names. */
  lemma DoneMeans(v: View, archiving: bool, fault: Fault)
    ensures var r := Step(v, if archiving then Archive else Restore, fault);
            r.1 == Done ==>
              && r.0.row == Some(v.row.value.(archived := archiving))
              && (if archiving
                  then r.0.archived == (if v.active.Some? then v.active else v.archived) && r.0.active.None?
                  else r.0.active == (if v.archived.Some? then v.archived else v.active) && r.0.archived.None?)
              && (r.0.active.Some? || r.0.archived.Some?)
  {
  }

  /** Archive and restore undo each other on an entity in good order. */
  lemma RestoreUndoesArchive(v: View)
    requires v.row.Some? && v.row.value.archived == v.active.None? && (v.active.Some? <==> v.archived.None?)
    ensures v.active.Some? ==> Step(Step(v, Archive, NoFault).0, Restore, NoFault) == (v, Done)
    ensures v.active.None? ==> Step(Step(v, Restore, NoFault).0, Archive, NoFault) == (v, Done)
  {
  }

  // ---------------------------------------------------------------- one call in plain terms

  /** The file's name is what follows the first colon of the id, which must be there, be followed by
      something, and that by no path separator; its folder is the kind, tasks for task. */
  lemma PathMeans(kind: string, id: string, p: Path)
    ensures PathOf(kind, id) == Some(p) <==>
            exists i :: 0 <= i < |id| - 1 && id[i] == ':' && ':' !in id[..i] && '/' !in id[i + 1..] &&
                '\\' !in id[i + 1..]
                        && p.slug == id[i + 1..] && p.kind == if kind == "task" then "tasks" else kind
  {
    var c := IndexOfColon(id);
    assert forall j :: 0 <= j < c && j < |id| ==> id[j] != ':';
    if i :| 0 <= i < |id| - 1 && id[i] == ':' && ':' !in id[..i] {
      assert forall j :: 0 <= j < i ==> id[j] == id[..i][j] && id[j] != ':';
      assert c == i;
    }
    if c < |id| - 1 {
      forall j | 0 <= j < |id[..c]| ensures id[..c][j] != ':' { assert id[..c][j] == id[j]; }
      assert ':' !in id[..c];
    }
  }

  /** Archive and restore: refused without a row; the file goes from its place to the other one unless it
      is already there alone, or nowhere; only then is the flag set, and only a call that set it is
      done. A failing step leaves everything behind it undone. */
  lemma TransitionMeans(v: View, archiving: bool, fault: Fault)
    ensures var r := Step(v, if archiving then Archive else Restore, fault);
            var from, to := if archiving then v.active else v.archived, if archiving then v.archived else v.active;
            var from' := if archiving then r.0.active else r.0.archived;
            var to' := if archiving then r.0.archived else r.0.active;
            && (r.1 == LoadError <==> fault == LoadFails)
            && (r.1 == NoSuchEntity <==> fault != LoadFails && v.row == None)
            && (r.1 == VaultError <==> fault == VaultFails && v.row.Some?)
            && (r.1 == NoSuchFile <==>
                (fault == NoFault || fault == DbFails) && v.row.Some? && from == None && to == None)
            && (r.1 == DbError <==> fault == DbFails && v.row.Some? && (from.Some? || to.Some?))
            && (r.1 == Done <==> fault == NoFault && v.row.Some? && (from.Some? || to.Some?))
            && (r.1 != Done && r.1 != DbError ==> r.0 == v)
            && (r.1 == Done || r.1 == DbError ==> from' == None && to' == if from.Some? then from else to)
            && (r.1 == DbError ==> r.0.row == v.row)
            && (r.1 == Done ==> r.0.row == Some(v.row.value.(archived := archiving)))
  {
  }

  /** Delete: only of an archived entity; the archived file goes if there is one, then the row; the
      active file stays whatever happens. */
  lemma DeleteMeans(v: View, fault: Fault)
    ensures var r := Step(v, Delete, fault);
            && (r.1 == LoadError <==> fault == LoadFails)
            && (r.1 == NoSuchEntity <==> fault != LoadFails && v.row == None)
            && (r.1 == NotArchived <==> fault != LoadFails && v.row.Some? && !v.row.value.archived)
            && (r.1 == VaultError <==> fault == VaultFails && v.row.Some? && v.row.value.archived)
            && (r.1 == DbError <==> fault == DbFails && v.row.Some? && v.row.value.archived)
            && (r.1 == Done <==> fault == NoFault && v.row.Some? && v.row.value.archived)
            && (r.1 != Done && r.1 != DbError ==> r.0 == v)
            && (r.1 == DbError ==> r.0 == View(v.row, v.active, None))
            && (r.1 == Done ==> r.0 == View(None, v.active, None))
  {
  }

  /** Only the target's path and row can move. */
  lemma OthersStay(s: Shelf, id: string, call: Call, fault: Fault, p: Path)
    requires Target(s, id) == Some(p)
    ensures var t := Apply(s, id, call, fault).0;
            && (forall q :: q != p ==>
                  Lookup(t.active, q) == Lookup(s.active, q) && Lookup(t.archive, q) == Lookup(s.archive, q))
            && (forall x :: x != id ==> Lookup(t.rows, x) == Lookup(s.rows, x))
  {
  }

  /** A call on the whole store is that on the entity's row and path, and nothing else moves; an id
      without a row, an active entity to be deleted, and an id that names no path are refused. */
  lemma CallMeans(s: Shelf, id: string, call: Call, fault: Fault)
    ensures var r := Apply(s, id, call, fault);
            && (r.1 == BadId <==>
                  && fault != LoadFails && id in s.rows && s.rows[id].kind != ""
                  && (call == Delete ==> s.rows[id].archived) && PathOf(s.rows[id].kind, id) == None)
            && (id in s.rows && s.rows[id].kind != "" && PathOf(s.rows[id].kind, id).Some? ==>
                  var p := PathOf(s.rows[id].kind, id).value;
                  && ViewAt(r.0, id, p) == Step(ViewAt(s, id, p), call, fault).0
                  && r.1 == Step(ViewAt(s, id, p), call, fault).1
                  && (forall q :: q != p ==>
                        Lookup(r.0.active, q) == Lookup(s.active, q) && Lookup(r.0.archive, q) == Lookup(s.archive, q)))
            && (!(id in s.rows && s.rows[id].kind != "" && PathOf(s.rows[id].kind, id).Some?) ==> r.0 == s)
            && (forall x :: x != id ==> Lookup(r.0.rows, x) == Lookup(s.rows, x))
  {
    if id in s.rows && s.rows[id].kind != "" && PathOf(s.rows[id].kind, id).Some? {
      ApplyAtTarget(s, id, call, fault, PathOf(s.rows[id].kind, id).value);
      OthersStay(s, id, call, fault, PathOf(s.rows[id].kind, id).value);
    }
  }
}
