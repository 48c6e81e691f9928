/** Exclusive output reservations (scripts/ga/cleanup_stale_release_work.py): files are created with
    O_EXCL, identified by (device, inode), finalized all-or-nothing, and removed only while still owned. */
module AuditFiles {
  import opened Collections
  import opened CleanupRecords

  datatype Content = Empty | Exactly(document: Document) | Garbled

  /** What `lstat` reports. */
  datatype Lookup = Missing | Unreadable | Found(identity: nat, regular: bool)

  /** Something that went wrong for no reason visible on the disk: a system call on a path raised, or
      another process acted. */
  datatype Fault =
    | Interference
    | StatFault(path: string)
    | FstatFault(path: string)
    | UnlinkFault(path: string)
    | CloseFault(path: string)
    | OtherFault

  /** Fault `f` is logged in `after` and was not yet in `before`. */
  predicate Occurred(before: seq<Fault>, after: seq<Fault>, f: Fault) {
    exists k :: |before| <= k < |after| && after[k] == f
  }

  /** The calls that raised, in order. */
  function Raises(faults: seq<Fault>): seq<Fault> {
    if faults == [] then []
    else Raises(faults[..|faults| - 1]) +
         if faults[|faults| - 1].Interference? then [] else [faults[|faults| - 1]]
  }

  /** The calls that raised between two points of a log. */
  function Since(before: seq<Fault>, after: seq<Fault>): seq<Fault> {
    if |before| <= |after| then Raises(after[|before|..]) else []
  }

  lemma {:induction false} RaisesConcat(a: seq<Fault>, b: seq<Fault>)
    ensures Raises(a + b) == Raises(a) + Raises(b)
  {
    if b == [] {
      assert a + b == a;
    } else {
      assert (a + b)[..|a + b| - 1] == a + b[..|b| - 1];
      RaisesConcat(a, b[..|b| - 1]);
    }
  }

  lemma SinceOne(a: seq<Fault>, f: Fault)
    ensures Since(a, a) == []
    ensures Since(a, a + [f]) == if f.Interference? then [] else [f]
  {
    assert a[|a|..] == [] && (a + [f])[|a|..] == [f];
    assert [f][..0] == [];
  }

  lemma SinceConcat(a: seq<Fault>, b: seq<Fault>, c: seq<Fault>)
    requires a <= b <= c
    ensures Since(a, c) == Since(a, b) + Since(b, c)
  {
    assert c[|a|..] == b[|a|..] + c[|b|..];
    RaisesConcat(b[|a|..], c[|b|..]);
  }

  /** A directory tree as this program sees it. An identity stands for a (device, inode) pair.
      `reserved` holds the identities this program created, `displaced` those whose name another
      process took away, `unlinked` every name this program removed with the identity it had, and
      `faults` everything that went wrong. */
  datatype Disk = Disk(
    names: map<string, nat>,
    contents: map<nat, Content>,
    next: nat,
    reserved: set<nat>,
    displaced: set<nat>,
    unlinked: seq<(string, nat)>,
    faults: seq<Fault>)
  {
    predicate Valid() {
      && displaced <= reserved <= contents.Keys
      && (forall id | id in contents :: id < next)
      && (forall p | p in names :: names[p] < next && names[p] !in displaced)
    }

    predicate Bound(path: string, id: nat) {
      path in names && names[path] == id
    }
  }

  /** How the disk may change while this program acts on the reservations in `mine` (identity to
      path) and other processes rebind names as they like, except that they never give one of this
      program's files a new name nor write to it. One of this program's files loses its name only by
      this program's own unlink or by interference. */
  predicate Evolved(a: Disk, b: Disk, mine: map<nat, string>) {
    && a.Valid() && b.Valid()
    && a.reserved <= b.reserved && a.displaced <= b.displaced && a.next <= b.next
    && a.faults <= b.faults
    && (b.displaced == a.displaced || Occurred(a.faults, b.faults, Interference))
    && (forall id | id in b.reserved && id !in a.reserved :: a.next <= id)
    && (forall p | p in a.names && a.names[p] in a.reserved ::
          || b.Bound(p, a.names[p])
          || a.names[p] in b.displaced
          || exists k :: |a.unlinked| <= k < |b.unlinked| && b.unlinked[k] == (p, a.names[p]))
    && (forall p | p in b.names && b.names[p] in a.reserved :: a.Bound(p, b.names[p]))
    && (forall id | id in a.reserved && id !in mine :: id in b.contents && a.contents[id] == b.contents[id])
    && a.unlinked <= b.unlinked
    && (forall k | |a.unlinked| <= k < |b.unlinked| ::
          b.unlinked[k].1 in mine && mine[b.unlinked[k].1] == b.unlinked[k].0)
  }

  lemma EvolvedBasics(a: Disk, b: Disk, mine: map<nat, string>)
    ensures Evolved(a, b, mine) ==> a.Valid() && b.Valid() && a.faults <= b.faults
    ensures a.Valid() ==> Evolved(a, a, mine)
  {
  }

  lemma EvolvedFault(a: Disk, f: Fault, mine: map<nat, string>)
    requires a.Valid()
    ensures Evolved(a, a.(faults := a.faults + [f]), mine)
  {
  }

  lemma OccurredLater(before: seq<Fault>, middle: seq<Fault>, after: seq<Fault>, f: Fault)
    requires before <= middle <= after
    ensures Occurred(before, middle, f) || Occurred(middle, after, f) ==> Occurred(before, after, f)
  {
  }

  lemma EvolvedTransitive(a: Disk, b: Disk, c: Disk, mine: map<nat, string>)
    requires Evolved(a, b, mine) && Evolved(b, c, mine)
    ensures Evolved(a, c, mine)
  {
    OccurredLater(a.faults, b.faults, c.faults, Interference);
    forall k | |a.unlinked| <= k < |c.unlinked|
      ensures c.unlinked[k].1 in mine && mine[c.unlinked[k].1] == c.unlinked[k].0
    {
      if k < |b.unlinked| { assert c.unlinked[k] == b.unlinked[k]; }
    }
    forall p | p in a.names && a.names[p] in a.reserved && !c.Bound(p, a.names[p]) && a.names[p] !in c.displaced
      ensures exists k :: |a.unlinked| <= k < |c.unlinked| && c.unlinked[k] == (p, a.names[p])
    {
      if !b.Bound(p, a.names[p]) {
        var k :| |a.unlinked| <= k < |b.unlinked| && b.unlinked[k] == (p, a.names[p]);
        assert c.unlinked[k] == (p, a.names[p]);
      }
    }
  }

  lemma EvolvedNames(a: Disk, b: Disk, mine: map<nat, string>)
    requires Evolved(a, b, mine)
    ensures forall p | p in b.names && b.names[p] in a.reserved :: a.Bound(p, b.names[p])
  {
  }

  lemma EvolvedWiden(a: Disk, b: Disk, mine: map<nat, string>, more: map<nat, string>)
    requires Evolved(a, b, mine)
    requires forall id | id in mine :: id in more && more[id] == mine[id]
    ensures Evolved(a, b, more)
  {
  }

  lemma EvolvedUnlink(a: Disk, path: string)
    requires a.Valid() && path in a.names
    ensures Evolved(a, Unlinked(a, path), map[a.names[path] := path])
  {
    assert Unlinked(a, path).unlinked[|a.unlinked|] == (path, a.names[path]);
  }

  function Unlinked(a: Disk, path: string): Disk
    requires path in a.names
  {
    a.(names := a.names - {path}, unlinked := a.unlinked + [(path, a.names[path])])
  }

  class FileSystem {
    var disk: Disk

    /** A call that can only fail or not. */
    method MayFail(fault: Fault) returns (failed: bool)
      modifies this
      ensures disk == if failed then old(disk).(faults := old(disk).faults + [fault]) else old(disk)
    {
      failed := *;
      if failed { disk := disk.(faults := disk.faults + [fault]); }
    }

    /** Other processes act. */
    method Interfere()
      requires disk.Valid()
      modifies this
      ensures Evolved(old(disk), disk, map[])
      ensures disk.reserved == old(disk).reserved && disk.unlinked == old(disk).unlinked
      ensures disk.faults == old(disk).faults ==> disk == old(disk)
      ensures Since(old(disk).faults, disk.faults) == []
    {
      EvolvedBasics(disk, disk, map[]);
      SinceOne(disk.faults, Interference);
      if * {
        EvolvedFault(disk, Interference, map[]);
        var d :| && Evolved(disk, d, map[]) && d.faults == disk.faults + [Interference]
                 && d.reserved == disk.reserved && d.unlinked == disk.unlinked;
        disk := d;
      }
    }

    /** Other processes act, then a call raises or not. */
    method MayRaise(fault: Fault) returns (raised: bool)
      requires disk.Valid() && !fault.Interference?
      modifies this
      ensures Evolved(old(disk), disk, map[])
      ensures disk.reserved == old(disk).reserved && disk.unlinked == old(disk).unlinked
      ensures disk.faults == old(disk).faults ==> disk == old(disk) && !raised
      ensures Since(old(disk).faults, disk.faults) == if raised then [fault] else []
      ensures raised ==> Occurred(old(disk).faults, disk.faults, fault)
    {
      hide Evolved, Since;
      Interfere();
      ghost var seen := disk;
      EvolvedBasics(old(disk), seen, map[]);
      raised := MayFail(fault);
      if raised {
        EvolvedFault(seen, fault, map[]);
        EvolvedTransitive(old(disk), seen, disk, map[]);
        SinceOne(seen.faults, fault);
        SinceConcat(old(disk).faults, seen.faults, disk.faults);
        assert disk.faults[|seen.faults|] == fault;
      }
    }

    method Lstat(path: string) returns (r: Lookup)
      requires disk.Valid()
      modifies this
      ensures Evolved(old(disk), disk, map[])
      ensures disk.reserved == old(disk).reserved && disk.unlinked == old(disk).unlinked
      ensures disk.faults == old(disk).faults ==> disk == old(disk) && !r.Unreadable?
      ensures Since(old(disk).faults, disk.faults) == if r.Unreadable? then [StatFault(path)] else []
      ensures r.Unreadable? ==> Occurred(old(disk).faults, disk.faults, StatFault(path))
      ensures r.Found? ==> disk.Bound(path, r.identity) && (r.identity in disk.reserved ==> r.regular)
      ensures r.Missing? ==> path !in disk.names
    {
      hide Evolved, Since, Occurred;
      var raised := MayRaise(StatFault(path));
      if raised {
        r := Unreadable;
      } else if path in disk.names {
        var regular: bool :| disk.names[path] in disk.reserved ==> regular;
        r := Found(disk.names[path], regular);
      } else {
        r := Missing;
      }
    }

    /** `os.open` with O_CREAT | O_EXCL: it never adopts an existing name. */
    method OpenExclusive(path: string) returns (r: Option<nat>)
      requires disk.Valid()
      modifies this
      ensures Evolved(old(disk), disk, map[])
      ensures disk.faults == old(disk).faults ==>
        && (r.None? <==> path in old(disk).names)
        && disk.names == if r.Some? then old(disk).names[path := r.value] else old(disk).names
      ensures r.None? ==> disk.reserved == old(disk).reserved
      ensures r.Some? ==> Created(old(disk), disk, path, r.value) && disk.contents[r.value] == Empty
    {
      Interfere();
      ghost var seen := disk;
      var failed := MayFail(OtherFault);
      if failed || path in disk.names {
        EvolvedFault(seen, OtherFault, map[]);
        EvolvedTransitive(old(disk), seen, disk, map[]);
        r := None;
      } else {
        r := Some(disk.next);
        disk := disk.(names := disk.names[path := disk.next],
                      contents := disk.contents[disk.next := Empty],
                      next := disk.next + 1,
                      reserved := disk.reserved + {disk.next});
        assert Evolved(seen, disk, map[]);
        EvolvedTransitive(old(disk), seen, disk, map[]);
      }
    }

    /** Removes a name; the check that precedes it and the removal are one step. */
    method Unlink(path: string) returns (ok: bool)
      requires path in disk.names
      modifies this
      ensures disk == if ok then Unlinked(old(disk), path)
                      else old(disk).(faults := old(disk).faults + [UnlinkFault(path)])
    {
      var failed := MayFail(UnlinkFault(path));
      ok := !failed;
      if ok { disk := Unlinked(disk, path); }
    }

    /** Writing through the open descriptor of a reserved file; a write that goes wrong may leave
        anything behind, and the name may meanwhile be taken away. */
    method Write(res: Reservation, document: Document) returns (ok: bool)
      requires disk.Valid() && res.identity in disk.reserved
      modifies this
      ensures Evolved(old(disk), disk, map[res.identity := res.path])
      ensures disk.reserved == old(disk).reserved && disk.unlinked == old(disk).unlinked
      ensures disk.faults == old(disk).faults ==>
        ok && disk.names == old(disk).names && disk.contents[res.identity] == Exactly(document)
    {
      var raised := MayRaise(OtherFault);
      ghost var seen := disk;
      var c: Content :| raised || c == Exactly(document);
      ok :| raised || ok;
      disk := disk.(contents := disk.contents[res.identity := c]);
      EvolvedWrite(seen, res, c);
      EvolvedWiden(old(disk), seen, map[], map[res.identity := res.path]);
      EvolvedTransitive(old(disk), seen, disk, map[res.identity := res.path]);
    }

    method ReadBack(id: nat) returns (r: Option<Content>)
      requires disk.Valid() && id in disk.reserved
      modifies this
      ensures Evolved(old(disk), disk, map[])
      ensures disk.reserved == old(disk).reserved && disk.unlinked == old(disk).unlinked
      ensures disk.faults == old(disk).faults ==> disk == old(disk) && r.Some?
      ensures r.Some? ==> r.value == disk.contents[id]
    {
      var raised := MayRaise(OtherFault);
      r := if raised then None else Some(disk.contents[id]);
    }
  }

  lemma EvolvedWrite(a: Disk, res: Reservation, c: Content)
    requires a.Valid() && res.identity in a.reserved
    ensures Evolved(a, a.(contents := a.contents[res.identity := c]), map[res.identity := res.path])
  {
  }

  class Reservation {
    const path: string
    const identity: nat
    var open: bool
    var finalized: bool

    constructor (path: string, identity: nat)
      ensures this.path == path && this.identity == identity && open && !finalized
    {
      this.path, this.identity, open, finalized := path, identity, true, false;
    }

    predicate Owned(disk: Disk) {
      disk.Bound(path, identity)
    }
  }

  // ----- reserving -----

  /** File `id` is new and has exactly the name `path`. */
  ghost predicate Created(a: Disk, b: Disk, path: string, id: nat) {
    && Evolved(a, b, map[])
    && b.reserved == a.reserved + {id} && a.next <= id
    && b.Bound(path, id) && forall p | p in b.names && b.names[p] == id :: p == path
  }

  /** Among these calls on the path, `fstat` raised, or an `lstat` did and then another `lstat` or an
      `unlink`. One raised `lstat` alone only leads to the handler. */
  ghost predicate Leaving(raises: seq<Fault>, path: string) {
    || FstatFault(path) in raises
    || exists j, k :: 0 <= j < k < |raises| && raises[j] == StatFault(path) && Unremoving(raises[k], path)
  }

  predicate Unremoving(f: Fault, path: string) {
    f == StatFault(path) || f == UnlinkFault(path)
  }

  /** What a reservation does once it raises after creating file `id`: it removes the file, or leaves
      things as they are, because of the calls that raised or because the name is no longer its own. */
  ghost predicate Abandons(a: Disk, b: Disk, path: string, id: nat) {
    && id in a.reserved && a.Bound(path, id)
    && Evolved(a, b, map[id := path]) && b.reserved == a.reserved
    && if Leaving(Since(a.faults, b.faults), path) then b.unlinked == a.unlinked
       else !b.Bound(path, id) && (b.unlinked == a.unlinked || b.unlinked == a.unlinked + [(path, id)])
  }

  /** An abandoned reservation leaves its file in place exactly when, since its creation, `fstat` raised,
      or the name check's `lstat` and then the handler's `lstat` or `unlink` (and nobody else took the
      name away). */
  lemma LeftBehindIff(a: Disk, b: Disk, path: string, id: nat)
    requires Abandons(a, b, path, id)
    ensures b.Bound(path, id) <==> id !in b.displaced && Leaving(Since(a.faults, b.faults), path)
  {
  }

  /** The three ways to leave the file behind, and one that is not: after a single raised `lstat` it is
      gone. */
  lemma ReservationMayLeaveItsFile(path: string)
    ensures var a := Disk(map[path := 0], map[0 := Empty], 1, {0}, {}, [], []);
            && Abandons(a, a.(faults := [FstatFault(path)]), path, 0)
            && Abandons(a, a.(faults := [StatFault(path), StatFault(path)]), path, 0)
            && Abandons(a, a.(faults := [StatFault(path), UnlinkFault(path)]), path, 0)
            && Abandons(a, Unlinked(a, path).(faults := [StatFault(path)]), path, 0)
            && !Abandons(a, a.(faults := [StatFault(path)]), path, 0)
  {
    hide Abandons, Leaving, Unlinked;
    LeavingFaults(path);
    StaysWithFaults(path, [FstatFault(path)]);
    StaysWithFaults(path, [StatFault(path), StatFault(path)]);
    StaysWithFaults(path, [StatFault(path), UnlinkFault(path)]);
    StaysWithFaults(path, [StatFault(path)]);
    GoneAfterOneFault(path);
  }

  lemma LeavingFaults(path: string)
    ensures Leaving([FstatFault(path)], path) && !Leaving([StatFault(path)], path)
    ensures Leaving([StatFault(path), StatFault(path)], path) && Leaving([StatFault(path), UnlinkFault(path)], path)
  {
    assert [StatFault(path), StatFault(path)][0] == StatFault(path);
    assert Unremoving([StatFault(path), StatFault(path)][1], path);
    assert [StatFault(path), UnlinkFault(path)][0] == StatFault(path);
    assert Unremoving([StatFault(path), UnlinkFault(path)][1], path);
  }

  /** A lone new file and a log of raised calls, with nothing done about it. */
  lemma StaysWithFaults(path: string, faults: seq<Fault>)
    requires forall f | f in faults :: !f.Interference?
    ensures var a := Disk(map[path := 0], map[0 := Empty], 1, {0}, {}, [], []);
            Abandons(a, a.(faults := faults), path, 0) <==> Leaving(faults, path)
  {
    hide Evolved, Leaving;
    var a := Disk(map[path := 0], map[0 := Empty], 1, {0}, {}, [], []);
    RaisesAll(faults);
    assert faults[0..] == faults;
    EvolvedLog(a, faults, map[0 := path]);
  }

  lemma EvolvedLog(a: Disk, faults: seq<Fault>, mine: map<nat, string>)
    requires a.Valid() && a.faults <= faults
    ensures Evolved(a, a.(faults := faults), mine)
  {
  }

  lemma GoneAfterOneFault(path: string)
    ensures var a := Disk(map[path := 0], map[0 := Empty], 1, {0}, {}, [], []);
            Abandons(a, Unlinked(a, path).(faults := [StatFault(path)]), path, 0)
  {
    hide Evolved;
    var a := Disk(map[path := 0], map[0 := Empty], 1, {0}, {}, [], []);
    var b := Unlinked(a, path).(faults := [StatFault(path)]);
    RaisesAll([StatFault(path)]);
    assert [StatFault(path)][0..] == [StatFault(path)];
    EvolvedUnlink(a, path);
    EvolvedBasics(a, Unlinked(a, path), map[0 := path]);
    EvolvedFault(Unlinked(a, path), StatFault(path), map[0 := path]);
    assert Unlinked(a, path).faults + [StatFault(path)] == b.faults;
    EvolvedTransitive(a, Unlinked(a, path), b, map[0 := path]);
  }

  lemma {:induction false} RaisesAll(faults: seq<Fault>)
    requires forall f | f in faults :: !f.Interference?
    ensures Raises(faults) == faults
  {
    if faults != [] { RaisesAll(faults[..|faults| - 1]); }
  }

  /** `Reserved` is the normal return; the other two raise, `Abandoned` after the file was created. */
  datatype ReserveResult = Reserved(reservation: Reservation) | Refused | Abandoned(identity: nat)

  /** The handler removed the file, or found the name no longer its own, or its own `lstat` or `unlink`
      raised. */
  ghost predicate Handled(a: Disk, b: Disk, path: string, id: nat) {
    var raises := Since(a.faults, b.faults);
    && Evolved(a, b, map[id := path]) && b.reserved == a.reserved && FstatFault(path) !in raises
    && if exists f | f in raises :: Unremoving(f, path) then b.unlinked == a.unlinked
       else !b.Bound(path, id) && (b.unlinked == a.unlinked || b.unlinked == a.unlinked + [(path, id)])
  }

  /** `_reserve_output` after its name check failed: close, and unlink the file if it is still ours. An
      OSError of the latter is swallowed. */
  method AbandonReservation(fs: FileSystem, path: string, id: nat)
    requires fs.disk.Valid() && id in fs.disk.reserved
    modifies fs
    ensures Handled(old(fs.disk), fs.disk, path, id)
  {
    hide Evolved, Since, Occurred;
    ghost var start, mine := fs.disk, map[id := path];
    EvolvedBasics(start, start, mine);
    EvolvedFault(start, CloseFault(path), mine);
    SinceOne(start.faults, CloseFault(path));
    var unclosed := fs.MayFail(CloseFault(path));
    ghost var closed := fs.disk;
    EvolvedBasics(start, closed, mine);
    var info := fs.Lstat(path);
    ghost var seen := fs.disk;
    EvolvedBasics(closed, seen, map[]);
    EvolvedWiden(closed, seen, map[], mine);
    EvolvedTransitive(start, closed, seen, mine);
    SinceConcat(start.faults, closed.faults, seen.faults);
    if info.Unreadable? {
      assert Unremoving(StatFault(path), path) && StatFault(path) in Since(closed.faults, seen.faults);
      return;
    }
    if info.Found? && info.regular && info.identity == id {
      EvolvedUnlink(seen, path);
      EvolvedFault(seen, UnlinkFault(path), mine);
      SinceOne(seen.faults, UnlinkFault(path));
      var ok := fs.Unlink(path);
      EvolvedTransitive(start, seen, fs.disk, mine);
      SinceConcat(start.faults, seen.faults, fs.disk.faults);
      assert !ok ==> UnlinkFault(path) in Since(start.faults, fs.disk.faults) && Unremoving(UnlinkFault(path), path);
    }
  }

  /** The name check followed by the handler. */
  lemma CheckedThenHandled(a: Disk, b: Disk, c: Disk, path: string, id: nat, raised: bool)
    requires id in a.reserved && a.Bound(path, id) && Evolved(a, b, map[])
    requires b.reserved == a.reserved && b.unlinked == a.unlinked
    requires Since(a.faults, b.faults) == if raised then [StatFault(path)] else []
    requires !raised ==> !b.Bound(path, id)
    requires Handled(b, c, path, id)
    ensures Abandons(a, c, path, id)
  {
    EvolvedNames(b, c, map[id := path]);
    EvolvedBasics(a, b, map[]);
    EvolvedBasics(b, c, map[id := path]);
    EvolvedWiden(a, b, map[], map[id := path]);
    EvolvedTransitive(a, b, c, map[id := path]);
    hide Evolved, Since;
    SinceConcat(a.faults, b.faults, c.faults);
    CheckThenHandlerLeaves(Since(b.faults, c.faults), path);
  }

  lemma CheckThenHandlerLeaves(raises: seq<Fault>, path: string)
    requires FstatFault(path) !in raises
    ensures Leaving([StatFault(path)] + raises, path) <==> exists f | f in raises :: Unremoving(f, path)
    ensures Leaving([] + raises, path) ==> exists f | f in raises :: Unremoving(f, path)
  {
    assert [] + raises == raises;
    if f :| f in raises && Unremoving(f, path) { SecondFaultLeaves(raises, path, f); }
  }

  lemma SecondFaultLeaves(raises: seq<Fault>, path: string, f: Fault)
    requires f in raises && Unremoving(f, path)
    ensures Leaving([StatFault(path)] + raises, path)
  {
    var all := [StatFault(path)] + raises;
    var k :| 0 <= k < |raises| && raises[k] == f;
    assert all[0] == StatFault(path) && all[k + 1] == f;
  }

  /** Success binds the path, and no other, to a new file. A failure after the file was created leaves
      it exactly as `LeftBehindIff` says; `created` is the disk just after the exclusive open. */
  method ReserveOutput(fs: FileSystem, path: string) returns (r: ReserveResult, ghost created: Disk)
    requires fs.disk.Valid()
    modifies fs
    ensures old(fs.disk).faults <= fs.disk.faults
    ensures fs.disk.faults == old(fs.disk).faults ==>
      && (r.Reserved? <==> path !in old(fs.disk).names) && !r.Abandoned?
      && fs.disk.names == if r.Reserved? then old(fs.disk).names[path := r.reservation.identity] else old(fs.disk).names
    ensures r.Refused? ==> Evolved(old(fs.disk), fs.disk, map[]) && fs.disk.reserved == old(fs.disk).reserved
    ensures r.Reserved? ==>
      var res := r.reservation;
      && fresh(res) && res.path == path && res.open && !res.finalized
      && Created(old(fs.disk), fs.disk, path, res.identity) && fs.disk.contents[res.identity] == Empty
    ensures r.Abandoned? ==>
      && Created(old(fs.disk), created, path, r.identity) && Abandons(created, fs.disk, path, r.identity)
      && (fs.disk.Bound(path, r.identity) <==>
            r.identity !in fs.disk.displaced && Leaving(Since(created.faults, fs.disk.faults), path))
  {
    hide Evolved, Since, Leaving, Handled, Occurred;
    ghost var start := fs.disk;
    created := start;
    var present := fs.Lstat(path);
    ghost var unnamed := fs.disk;
    EvolvedBasics(start, unnamed, map[]);
    if !present.Missing? { return Refused, created; }
    var made := fs.OpenExclusive(path);
    EvolvedBasics(unnamed, fs.disk, map[]);
    EvolvedTransitive(start, unnamed, fs.disk, map[]);
    if made.None? { return Refused, created; }
    var id := made.value;
    created := fs.disk;
    var unread := fs.MayRaise(FstatFault(path));
    ghost var known := fs.disk;
    EvolvedBasics(created, known, map[]);
    if unread {
      FstatRaised(created, known, path, id);
      LeftBehindIff(created, known, path, id);
      return Abandoned(id), created;
    }
    var info := fs.Lstat(path);
    ghost var checked := fs.disk;
    EvolvedBasics(known, checked, map[]);
    EvolvedTransitive(created, known, checked, map[]);
    SinceConcat(created.faults, known.faults, checked.faults);
    if info.Found? && info.regular && info.identity == id {
      StillCreated(start, created, checked, path, id);
      var res := new Reservation(path, id);
      return Reserved(res), created;
    }
    AbandonReservation(fs, path, id);
    CheckedThenHandled(created, checked, fs.disk, path, id, info.Unreadable?);
    LeftBehindIff(created, fs.disk, path, id);
    HandledValid(checked, fs.disk, path, id);
    return Abandoned(id), created;
  }

  lemma HandledValid(a: Disk, b: Disk, path: string, id: nat)
    requires Handled(a, b, path, id)
    ensures a.faults <= b.faults
  {
  }

  lemma FstatRaised(a: Disk, b: Disk, path: string, id: nat)
    requires id in a.reserved && a.Bound(path, id) && Evolved(a, b, map[])
    requires b.reserved == a.reserved && b.unlinked == a.unlinked && Since(a.faults, b.faults) == [FstatFault(path)]
    ensures Abandons(a, b, path, id)
  {
    EvolvedWiden(a, b, map[], map[id := path]);
  }

  lemma StillCreated(a: Disk, b: Disk, c: Disk, path: string, id: nat)
    requires Created(a, b, path, id) && Evolved(b, c, map[]) && c.reserved == b.reserved && c.Bound(path, id)
    requires b.contents[id] == Empty
    ensures Created(a, c, path, id) && c.contents[id] == Empty
  {
    EvolvedTransitive(a, b, c, map[]);
    EvolvedNames(b, c, map[]);
  }

  // ----- cleaning up -----

  datatype CleanupFault = CloseFailed | LstatFailed | UnlinkFailed | IdentityChanged

  /** The system calls named in a cleanup error did raise, on this path. */
  ghost predicate Reported(errors: seq<CleanupFault>, before: seq<Fault>, after: seq<Fault>, path: string) {
    && (CloseFailed in errors ==> Occurred(before, after, CloseFault(path)))
    && (LstatFailed in errors ==> Occurred(before, after, StatFault(path)))
    && (UnlinkFailed in errors ==> Occurred(before, after, UnlinkFault(path)))
  }

  lemma ReportedLater(errors: seq<CleanupFault>, a: seq<Fault>, b: seq<Fault>, c: seq<Fault>, d: seq<Fault>, path: string)
    requires Reported(errors, b, c, path) && a <= b <= c <= d
    ensures Reported(errors, a, d, path)
  {
  }

  /** The disk after an undisturbed cleanup: the name is removed if and only if it is still ours. */
  function Cleaned(disk: Disk, res: Reservation): Disk {
    if res.Owned(disk) then Unlinked(disk, res.path) else disk
  }

  /** The cleanup reported why this file is still in place. */
  predicate Excused(errors: seq<CleanupFault>) {
    LstatFailed in errors || UnlinkFailed in errors
  }

  /** The part of `_cleanup_reserved_output` after the descriptor is closed. */
  method RemoveOwned(fs: FileSystem, res: Reservation) returns (errors: seq<CleanupFault>)
    requires fs.disk.Valid() && res.identity in fs.disk.reserved
    modifies fs
    ensures Evolved(old(fs.disk), fs.disk, map[res.identity := res.path])
    ensures fs.disk.reserved == old(fs.disk).reserved
    ensures UnlinkedAtMost(old(fs.disk), fs.disk, res)
    ensures CloseFailed !in errors && Reported(errors, old(fs.disk).faults, fs.disk.faults, res.path)
    ensures CleanupVerdict(fs.disk, res, errors)
    ensures fs.disk.faults == old(fs.disk).faults ==>
      fs.disk == Cleaned(old(fs.disk), res) && errors == if res.path in fs.disk.names then [IdentityChanged] else []
  {
    hide Evolved;
    ghost var start, mine := fs.disk, map[res.identity := res.path];
    var info := fs.Lstat(res.path);
    ghost var seen := fs.disk;
    EvolvedBasics(start, seen, map[]);
    EvolvedWiden(start, seen, map[], mine);
    if info.Unreadable? { return [LstatFailed]; }
    if info.Missing? { return []; }
    if !(info.regular && info.identity == res.identity) { return [IdentityChanged]; }
    UnownedStays(start, seen, mine, res);
    EvolvedUnlink(seen, res.path);
    EvolvedFault(seen, UnlinkFault(res.path), mine);
    var ok := fs.Unlink(res.path);
    EvolvedTransitive(start, seen, fs.disk, mine);
    if !ok {
      assert fs.disk.faults[|seen.faults|] == UnlinkFault(res.path);
      return [UnlinkFailed];
    }
    return [];
  }

  /** The only name removed, if any, is the reservation's own, while it is owned. */
  ghost predicate UnlinkedAtMost(a: Disk, b: Disk, res: Reservation) {
    b.unlinked == a.unlinked || (res.Owned(a) && b.unlinked == a.unlinked + [(res.path, res.identity)])
  }

  /** What the errors say about the path: none means it is free, a changed identity that it names
      another file, and a reserved file still in place is excused. */
  ghost predicate CleanupVerdict(disk: Disk, res: Reservation, errors: seq<CleanupFault>) {
    && (errors == [] ==> res.path !in disk.names)
    && (IdentityChanged in errors ==> res.path in disk.names && !res.Owned(disk))
    && (res.Owned(disk) ==> Excused(errors))
  }

  /** Removes a reserved file, but only while its path still names the reserved identity. A returned
      list that is not empty is the error the source raises. */
  method CleanupReservedOutput(fs: FileSystem, res: Reservation) returns (errors: seq<CleanupFault>)
    requires fs.disk.Valid() && res.identity in fs.disk.reserved
    modifies fs, res`open
    ensures !res.open
    ensures Evolved(old(fs.disk), fs.disk, map[res.identity := res.path])
    ensures fs.disk.reserved == old(fs.disk).reserved
    ensures UnlinkedAtMost(old(fs.disk), fs.disk, res)
    ensures Reported(errors, old(fs.disk).faults, fs.disk.faults, res.path)
    ensures CleanupVerdict(fs.disk, res, errors)
    ensures fs.disk.faults == old(fs.disk).faults ==>
      fs.disk == Cleaned(old(fs.disk), res) && errors == if res.path in fs.disk.names then [IdentityChanged] else []
  {
    hide Evolved;
    ghost var start, mine := fs.disk, map[res.identity := res.path];
    var unclosed := false;
    EvolvedBasics(start, start, mine);
    if res.open {
      EvolvedFault(start, CloseFault(res.path), mine);
      unclosed := fs.MayFail(CloseFault(res.path));
      res.open := false;
    }
    ghost var closed := fs.disk;
    EvolvedBasics(start, closed, mine);
    errors := RemoveOwned(fs, res);
    EvolvedBasics(closed, fs.disk, mine);
    EvolvedTransitive(start, closed, fs.disk, mine);
    ReportedLater(errors, start.faults, closed.faults, fs.disk.faults, fs.disk.faults, res.path);
    if unclosed {
      assert fs.disk.faults[|start.faults|] == CloseFault(res.path);
      errors := [CloseFailed] + errors;
    }
  }

  /** Repeating a cleanup changes nothing: the second one unlinks nothing after a first that raised
      nothing, and, undisturbed, both raise the same and the disk is that of a single cleanup. */
  method CleanupTwice(fs: FileSystem, res: Reservation) returns (first: seq<CleanupFault>, second: seq<CleanupFault>)
    requires fs.disk.Valid() && res.identity in fs.disk.reserved
    modifies fs, res`open
    ensures first == [] ==> !res.Owned(fs.disk)
    ensures first == [] ==> |fs.disk.unlinked| <= |old(fs.disk).unlinked| + if res.Owned(old(fs.disk)) then 1 else 0
    ensures fs.disk.faults == old(fs.disk).faults ==> second == first && fs.disk == Cleaned(old(fs.disk), res)
  {
    first := CleanupReservedOutput(fs, res);
    second := CleanupReservedOutput(fs, res);
  }

  // ----- finalizing -----

  /** On disk `b` the file holds exactly the document under its own path, unless another process took
      the name away since disk `a`. */
  ghost predicate Holds(a: Disk, b: Disk, res: Reservation, document: Document) {
    && res.identity in b.contents && b.contents[res.identity] == Exactly(document)
    && (res.Owned(b) || Occurred(a.faults, b.faults, Interference))
  }

  lemma HoldsKept(a: Disk, b: Disk, c: Disk, mine: map<nat, string>, res: Reservation, document: Document)
    requires Evolved(b, c, mine) && res.identity in b.reserved && res.identity !in mine
    requires Holds(a, b, res, document) && a.faults <= b.faults
    ensures Holds(a, c, res, document)
  {
    OccurredLater(a.faults, b.faults, c.faults, Interference);
  }

  lemma HoldsSince(a: Disk, b: Disk, c: Disk, res: Reservation, document: Document)
    requires a.faults <= b.faults <= c.faults && Holds(b, c, res, document)
    ensures Holds(a, c, res, document)
  {
    OccurredLater(a.faults, b.faults, c.faults, Interference);
  }

  /** Writes the payload through the reserved descriptor, reads it back, and checks the path's
      identity before and after. A normal return means the path names the reserved file and the file
      holds exactly the document. */
  method FinalizeReservedOutput(fs: FileSystem, res: Reservation, document: Document) returns (ok: bool)
    requires fs.disk.Valid() && res.identity in fs.disk.reserved
    modifies fs, res
    ensures !res.open
    ensures Evolved(old(fs.disk), fs.disk, map[res.identity := res.path])
    ensures fs.disk.reserved == old(fs.disk).reserved && fs.disk.unlinked == old(fs.disk).unlinked
    ensures ok ==> res.finalized && res.Owned(fs.disk) && Holds(old(fs.disk), fs.disk, res, document)
    ensures !res.Owned(old(fs.disk)) ==> fs.disk.contents[res.identity] == old(fs.disk).contents[res.identity]
    ensures fs.disk.faults == old(fs.disk).faults ==>
      fs.disk.names == old(fs.disk).names && (ok <==> old(res.open) && res.Owned(old(fs.disk)))
  {
    ghost var mine := map[res.identity := res.path];
    EvolvedBasics(fs.disk, fs.disk, mine);
    if !res.open { return false; }
    EvolvedFault(fs.disk, OtherFault, mine);
    var unadopted := fs.MayFail(OtherFault);
    res.open := false;
    if unadopted { return false; }
    ok := WriteChecked(fs, res, document);
    if ok { res.finalized := true; }
    ghost var written := fs.disk;
    EvolvedFault(written, CloseFault(res.path), mine);
    var unclosed := fs.MayFail(CloseFault(res.path));
    EvolvedTransitive(old(fs.disk), written, fs.disk, mine);
    if unclosed { ok := false; }
  }

  /** The body of the try block: check, write, read back, check. */
  method WriteChecked(fs: FileSystem, res: Reservation, document: Document) returns (ok: bool)
    requires fs.disk.Valid() && res.identity in fs.disk.reserved
    modifies fs
    ensures Evolved(old(fs.disk), fs.disk, map[res.identity := res.path])
    ensures fs.disk.reserved == old(fs.disk).reserved && fs.disk.unlinked == old(fs.disk).unlinked
    ensures ok ==> res.Owned(fs.disk) && Holds(old(fs.disk), fs.disk, res, document)
    ensures !res.Owned(old(fs.disk)) ==> fs.disk.contents[res.identity] == old(fs.disk).contents[res.identity]
    ensures fs.disk.faults == old(fs.disk).faults ==>
      fs.disk.names == old(fs.disk).names && (ok <==> res.Owned(old(fs.disk)))
  {
    hide Evolved, Since, Occurred;
    ghost var start, mine := fs.disk, map[res.identity := res.path];
    var before := fs.Lstat(res.path);
    ghost var seen := fs.disk;
    ContentStays(start, seen, res);
    EvolvedBasics(start, seen, map[]);
    EvolvedWiden(start, seen, map[], mine);
    if !(before.Found? && before.regular && before.identity == res.identity) { return false; }
    UnownedStays(start, seen, mine, res);
    var written := WriteAndRead(fs, res, document);
    ghost var back := fs.disk;
    EvolvedBasics(seen, back, mine);
    EvolvedTransitive(start, seen, back, mine);
    if !written { return false; }
    var after := fs.Lstat(res.path);
    ContentStays(back, fs.disk, res);
    EvolvedBasics(back, fs.disk, map[]);
    EvolvedWiden(back, fs.disk, map[], mine);
    EvolvedTransitive(start, back, fs.disk, mine);
    ok := after.Found? && after.regular && after.identity == res.identity;
  }

  /** The write and its exact read-back; the name is not looked at. */
  method WriteAndRead(fs: FileSystem, res: Reservation, document: Document) returns (ok: bool)
    requires fs.disk.Valid() && res.identity in fs.disk.reserved
    modifies fs
    ensures Evolved(old(fs.disk), fs.disk, map[res.identity := res.path])
    ensures fs.disk.reserved == old(fs.disk).reserved && fs.disk.unlinked == old(fs.disk).unlinked
    ensures res.identity in fs.disk.contents && (ok ==> fs.disk.contents[res.identity] == Exactly(document))
    ensures fs.disk.faults == old(fs.disk).faults ==> fs.disk.names == old(fs.disk).names && ok
  {
    hide Evolved;
    ghost var start, mine := fs.disk, map[res.identity := res.path];
    var written := fs.Write(res, document);
    ghost var seen := fs.disk;
    EvolvedBasics(start, seen, mine);
    if !written { return false; }
    var back := fs.ReadBack(res.identity);
    EvolvedBasics(seen, fs.disk, map[]);
    EvolvedWiden(seen, fs.disk, map[], mine);
    EvolvedTransitive(start, seen, fs.disk, mine);
    ok := back == Some(Exactly(document));
  }

  lemma ContentStays(a: Disk, b: Disk, res: Reservation)
    requires Evolved(a, b, map[]) && res.identity in a.reserved
    ensures res.identity in a.contents && res.identity in b.contents
    ensures b.contents[res.identity] == a.contents[res.identity]
  {
  }

  ghost predicate Separate(rs: seq<Reservation>) {
    forall i, j :: 0 <= i < j < |rs| ==> rs[i] != rs[j] && rs[i].identity != rs[j].identity
  }

  /** The paths this program may act on, by identity. */
  ghost function Mine(rs: seq<Reservation>): (m: map<nat, string>)
    requires Separate(rs)
    ensures forall i | 0 <= i < |rs| :: rs[i].identity in m && m[rs[i].identity] == rs[i].path
    ensures forall id | id in m :: exists i | 0 <= i < |rs| :: rs[i].identity == id
  {
    if rs == [] then map[] else
      var last := rs[|rs| - 1];
      Mine(rs[..|rs| - 1])[last.identity := last.path]
  }

  ghost predicate AllReserved(disk: Disk, rs: seq<Reservation>) {
    forall i | 0 <= i < |rs| :: rs[i].identity in disk.reserved
  }

  lemma UnownedStays(a: Disk, b: Disk, mine: map<nat, string>, res: Reservation)
    requires Evolved(a, b, mine) && res.identity in a.reserved
    ensures res.Owned(b) ==> res.Owned(a)
  {
  }

  // ----- several outputs -----

  /** What `CleanupAll` promises about one entry. */
  ghost predicate CleanedUp(a: Disk, b: Disk, res: Reservation, errors: seq<CleanupFault>) {
    && Reported(errors, a.faults, b.faults, res.path)
    && (res.Owned(b) ==> Excused(errors))
    && (b.faults == a.faults && (res.Owned(a) || res.path !in a.names) ==> errors == [] && res.path !in b.names)
  }

  /** Undisturbed cleanups remove only names that are still the reservation's own. */
  ghost predicate OnlyOwnGone(a: Disk, b: Disk, rest: seq<Reservation>) {
    b.faults == a.faults ==>
      && b.names.Keys <= a.names.Keys
      && forall i | 0 <= i < |rest| && rest[i].Owned(a) :: rest[i].Owned(b)
  }

  lemma CleanedUpLater(a: Disk, b: Disk, c: Disk, mine: map<nat, string>, res: Reservation, errors: seq<CleanupFault>)
    requires CleanedUp(a, b, res, errors) && Evolved(b, c, mine) && a.faults <= b.faults
    requires res.identity in b.reserved && (c.faults == b.faults ==> c.names.Keys <= b.names.Keys)
    ensures CleanedUp(a, c, res, errors)
  {
    ReportedLater(errors, a.faults, a.faults, b.faults, c.faults, res.path);
  }

  lemma CleanedUpNow(a: Disk, b: Disk, c: Disk, rest: seq<Reservation>, res: Reservation, errors: seq<CleanupFault>)
    requires CleanedUp(b, c, res, errors) && a.faults <= b.faults <= c.faults
    requires rest != [] && rest[0] == res && OnlyOwnGone(a, b, rest)
    ensures CleanedUp(a, c, res, errors)
  {
    ReportedLater(errors, a.faults, b.faults, c.faults, c.faults, res.path);
  }

  lemma OnlyOwnGoneStep(a: Disk, b: Disk, c: Disk, rest: seq<Reservation>)
    requires rest != [] && Separate(rest) && OnlyOwnGone(a, b, rest) && a.faults <= b.faults <= c.faults
    requires c.faults == b.faults ==> c == Cleaned(b, rest[0])
    ensures OnlyOwnGone(a, c, rest[1..])
    ensures c.faults == b.faults ==> c.names.Keys <= b.names.Keys
  {
    if c.faults == b.faults {
      forall i | 1 <= i < |rest| && rest[i].Owned(b) ensures rest[i].Owned(c) {
        assert rest[i].identity != rest[0].identity;
      }
    }
  }

  /** The cleanup loop of both exception handlers, with the errors of each entry. */
  method CleanupAll(fs: FileSystem, rs: seq<Reservation>) returns (errors: seq<seq<CleanupFault>>)
    requires fs.disk.Valid() && Separate(rs) && AllReserved(fs.disk, rs)
    modifies fs, rs
    ensures Evolved(old(fs.disk), fs.disk, Mine(rs)) && fs.disk.reserved == old(fs.disk).reserved
    ensures |errors| == |rs| && forall i | 0 <= i < |rs| ::
      !rs[i].open && CleanedUp(old(fs.disk), fs.disk, rs[i], errors[i])
  {
    hide Evolved, Mine, CleanedUp, Cleaning, Reported, Cleaned;
    ghost var start := fs.disk;
    errors := [];
    CleaningStart(start, rs);
    for k := 0 to |rs|
      invariant |errors| == k && Cleaning(start, fs.disk, rs, errors)
      invariant forall i | 0 <= i < k :: !rs[i].open
    {
      ghost var before := fs.disk;
      CleaningFacts(start, before, rs, errors);
      var reported := CleanupReservedOutput(fs, rs[k]);
      CleanedUpOne(before, fs.disk, rs[k], reported);
      CleaningStep(start, before, fs.disk, rs, errors, reported);
      errors := errors + [reported];
    }
    CleaningFacts(start, fs.disk, rs, errors);
  }

  /** The first entries have been cleaned up, with these errors. */
  ghost predicate Cleaning(a: Disk, b: Disk, rs: seq<Reservation>, errors: seq<seq<CleanupFault>>)
    requires Separate(rs) && |errors| <= |rs|
  {
    && Evolved(a, b, Mine(rs)) && b.reserved == a.reserved && OnlyOwnGone(a, b, rs[|errors|..])
    && forall i | 0 <= i < |errors| :: CleanedUp(a, b, rs[i], errors[i])
  }

  lemma CleaningStart(a: Disk, rs: seq<Reservation>)
    requires a.Valid() && Separate(rs)
    ensures Cleaning(a, a, rs, [])
  {
    EvolvedBasics(a, a, Mine(rs));
    NoneGone(a, rs[0..]);
  }

  lemma CleaningFacts(a: Disk, b: Disk, rs: seq<Reservation>, errors: seq<seq<CleanupFault>>)
    requires Separate(rs) && |errors| <= |rs| && Cleaning(a, b, rs, errors)
    ensures Evolved(a, b, Mine(rs)) && b.Valid() && b.reserved == a.reserved
    ensures forall i | 0 <= i < |errors| :: CleanedUp(a, b, rs[i], errors[i])
  {
    EvolvedBasics(a, b, Mine(rs));
  }

  lemma CleaningStep(a: Disk, b: Disk, c: Disk, rs: seq<Reservation>, errors: seq<seq<CleanupFault>>,
                     reported: seq<CleanupFault>)
    requires Separate(rs) && |errors| < |rs| && AllReserved(a, rs) && Cleaning(a, b, rs, errors)
    requires var res := rs[|errors|];
             && Evolved(b, c, map[res.identity := res.path]) && c.reserved == b.reserved
             && CleanedUp(b, c, res, reported) && (c.faults == b.faults ==> c == Cleaned(b, res))
    ensures Cleaning(a, c, rs, errors + [reported])
  {
    hide Evolved, Mine, CleanedUp, OnlyOwnGone, Cleaned;
    var k := |errors|;
    var mine := map[rs[k].identity := rs[k].path];
    EvolvedBasics(a, b, Mine(rs));
    EvolvedBasics(b, c, mine);
    EvolvedWiden(b, c, mine, Mine(rs));
    EvolvedTransitive(a, b, c, Mine(rs));
    CleanedUpNow(a, b, c, rs[k..], rs[k], reported);
    SeparateTail(rs, k);
    OnlyOwnGoneStep(a, b, c, rs[k..]);
    assert rs[k..][1..] == rs[k + 1..];
    forall i | 0 <= i < k ensures CleanedUp(a, c, rs[i], errors[i]) {
      CleanedUpLater(a, b, c, mine, rs[i], errors[i]);
    }
  }

  lemma NoneGone(a: Disk, rs: seq<Reservation>)
    ensures OnlyOwnGone(a, a, rs)
  {
  }

  lemma SeparateTail(rs: seq<Reservation>, k: nat)
    requires k <= |rs| && Separate(rs)
    ensures Separate(rs[k..])
  {
  }

  lemma CleanedUpOne(a: Disk, b: Disk, res: Reservation, errors: seq<CleanupFault>)
    requires Reported(errors, a.faults, b.faults, res.path) && (res.Owned(b) ==> Excused(errors))
    requires b.faults == a.faults ==>
      b == Cleaned(a, res) && errors == if res.path in b.names then [IdentityChanged] else []
    ensures CleanedUp(a, b, res, errors)
  {
  }

  /** Every reservation is open and still owned. */
  ghost predicate AllReady(rs: seq<Reservation>, disk: Disk)
    reads rs
  {
    forall i | 0 <= i < |rs| :: rs[i].open && rs[i].Owned(disk)
  }

  /** The first `n` outputs were finalized; `ready` says which entries were open at the start. */
  ghost predicate Finalizing(a: Disk, b: Disk, rs: seq<Reservation>, documents: seq<Document>, ready: seq<bool>, n: nat)
    requires Separate(rs) && |rs| == |documents| == |ready| && n <= |rs|
  {
    && Evolved(a, b, Mine(rs)) && b.reserved == a.reserved && b.unlinked == a.unlinked
    && (forall i | 0 <= i < n :: Holds(a, b, rs[i], documents[i]))
    && (b.faults == a.faults ==> b.names == a.names && forall i | 0 <= i < n :: ready[i] && rs[i].Owned(a))
  }

  lemma FinalizingStart(a: Disk, rs: seq<Reservation>, documents: seq<Document>, ready: seq<bool>)
    requires Separate(rs) && |rs| == |documents| == |ready| && a.Valid()
    ensures Finalizing(a, a, rs, documents, ready, 0)
  {
    EvolvedBasics(a, a, Mine(rs));
  }

  lemma FinalizingFacts(a: Disk, b: Disk, rs: seq<Reservation>, documents: seq<Document>, ready: seq<bool>, n: nat)
    requires Separate(rs) && |rs| == |documents| == |ready| && n <= |rs| && AllReserved(a, rs)
    requires Finalizing(a, b, rs, documents, ready, n)
    ensures b.Valid() && AllReserved(b, rs)
    ensures Evolved(a, b, Mine(rs)) && b.reserved == a.reserved && b.unlinked == a.unlinked
    ensures forall i | 0 <= i < n :: Holds(a, b, rs[i], documents[i])
    ensures b.faults == a.faults ==> b.names == a.names && forall i | 0 <= i < n :: ready[i] && rs[i].Owned(a)
  {
    EvolvedBasics(a, b, Mine(rs));
  }

  /** Finalizing one output keeps those finalized before it. */
  lemma FinalizeStep(a: Disk, b: Disk, c: Disk, rs: seq<Reservation>, documents: seq<Document>, ready: seq<bool>, n: nat,
                     ok: bool)
    requires Separate(rs) && |rs| == |documents| == |ready| && n < |rs| && AllReserved(a, rs)
    requires Finalizing(a, b, rs, documents, ready, n)
    requires Evolved(b, c, map[rs[n].identity := rs[n].path]) && c.reserved == b.reserved && c.unlinked == b.unlinked
    requires ok ==> Holds(b, c, rs[n], documents[n])
    requires c.faults == b.faults ==> c.names == b.names && (ok <==> ready[n] && rs[n].Owned(b))
    ensures Finalizing(a, c, rs, documents, ready, if ok then n + 1 else n)
    ensures !ok && c.faults == a.faults ==> !(ready[n] && rs[n].Owned(a))
  {
    hide Evolved, Mine, Holds;
    var mine := map[rs[n].identity := rs[n].path];
    EvolvedBasics(a, b, Mine(rs));
    EvolvedBasics(b, c, mine);
    EvolvedWiden(b, c, mine, Mine(rs));
    EvolvedTransitive(a, b, c, Mine(rs));
    forall i | 0 <= i < n ensures Holds(a, c, rs[i], documents[i]) {
      HoldsKept(a, b, c, mine, rs[i], documents[i]);
    }
    if ok { HoldsSince(a, b, c, rs[n], documents[n]); }
  }

  /** One turn of the loop. */
  method FinalizeNext(fs: FileSystem, rs: seq<Reservation>, documents: seq<Document>, n: nat,
                      ghost start: Disk, ghost ready: seq<bool>)
    returns (ok: bool)
    requires Separate(rs) && |rs| == |documents| == |ready| && n < |rs| && AllReserved(start, rs)
    requires Finalizing(start, fs.disk, rs, documents, ready, n) && rs[n].open == ready[n]
    modifies fs, rs[n]
    ensures Finalizing(start, fs.disk, rs, documents, ready, if ok then n + 1 else n)
    ensures !rs[n].open && (ok ==> rs[n].finalized)
    ensures !ok && fs.disk.faults == start.faults ==> !(ready[n] && rs[n].Owned(start))
  {
    hide Evolved, Mine, Holds, Finalizing;
    ghost var before := fs.disk;
    FinalizingFacts(start, before, rs, documents, ready, n);
    ok := FinalizeReservedOutput(fs, rs[n], documents[n]);
    FinalizeStep(start, before, fs.disk, rs, documents, ready, n, ok);
  }

  /** The loop of the try block: stops at the first output that cannot be finalized. */
  method FinalizeEach(fs: FileSystem, rs: seq<Reservation>, documents: seq<Document>) returns (ok: bool)
    requires fs.disk.Valid() && |rs| == |documents| && Separate(rs) && AllReserved(fs.disk, rs)
    modifies fs, rs
    ensures Evolved(old(fs.disk), fs.disk, Mine(rs))
    ensures fs.disk.reserved == old(fs.disk).reserved && fs.disk.unlinked == old(fs.disk).unlinked
    ensures ok ==> forall i | 0 <= i < |rs| ::
      !rs[i].open && rs[i].finalized && Holds(old(fs.disk), fs.disk, rs[i], documents[i])
    ensures fs.disk.faults == old(fs.disk).faults ==>
      fs.disk.names == old(fs.disk).names && (ok <==> old(AllReady(rs, fs.disk)))
  {
    hide Evolved, Mine, Holds, Finalizing;
    ghost var start := fs.disk;
    ghost var ready := seq(|rs|, i requires 0 <= i < |rs| reads rs => rs[i].open);
    FinalizingStart(start, rs, documents, ready);
    for n := 0 to |rs|
      invariant Finalizing(start, fs.disk, rs, documents, ready, n)
      invariant forall i | 0 <= i < n :: !rs[i].open && rs[i].finalized
      invariant forall i | n <= i < |rs| :: rs[i].open == ready[i]
    {
      ok := FinalizeNext(fs, rs, documents, n, start, ready);
      if !ok {
        FinalizingFacts(start, fs.disk, rs, documents, ready, n);
        return;
      }
    }
    FinalizingFacts(start, fs.disk, rs, documents, ready, |rs|);
    ok := true;
  }

  /** Committed, or every entry was cleaned up, with the errors of each. */
  datatype FinalizeResult = Committed | Withdrawn(errors: seq<seq<CleanupFault>>)

  /** All-or-nothing for any number of outputs: on commit every file holds exactly its document under
      its own path (unless another process took the name away); otherwise an entry still in place is
      one whose own `lstat` or `unlink` raised during cleanup. Undisturbed, it commits exactly when every
      reservation is open and owned, and otherwise removes every one that is owned. */
  method FinalizeReservedOutputs(fs: FileSystem, rs: seq<Reservation>, documents: seq<Document>)
    returns (r: FinalizeResult)
    requires fs.disk.Valid() && |rs| == |documents| && Separate(rs) && AllReserved(fs.disk, rs)
    modifies fs, rs
    ensures Evolved(old(fs.disk), fs.disk, Mine(rs)) && fs.disk.reserved == old(fs.disk).reserved
    ensures forall i | 0 <= i < |rs| :: !rs[i].open
    ensures r.Committed? ==> fs.disk.unlinked == old(fs.disk).unlinked && forall i | 0 <= i < |rs| ::
      rs[i].finalized && Holds(old(fs.disk), fs.disk, rs[i], documents[i])
    ensures r.Withdrawn? ==> |r.errors| == |rs| && forall i | 0 <= i < |rs| ::
      CleanedUp(old(fs.disk), fs.disk, rs[i], r.errors[i])
    ensures fs.disk.faults == old(fs.disk).faults ==>
      (r.Committed? <==> old(AllReady(rs, fs.disk))) && (r.Committed? ==> fs.disk.names == old(fs.disk).names)
  {
    hide Evolved, Mine, Holds, CleanedUp;
    ghost var start := fs.disk;
    var ok := FinalizeEach(fs, rs, documents);
    if ok { return Committed; }
    ghost var before := fs.disk;
    EvolvedBasics(start, before, Mine(rs));
    var errors := CleanupAll(fs, rs);
    EvolvedBasics(before, fs.disk, Mine(rs));
    EvolvedTransitive(start, before, fs.disk, Mine(rs));
    forall i | 0 <= i < |rs| ensures CleanedUp(start, fs.disk, rs[i], errors[i]) {
      CleanedUpSince(start, before, fs.disk, rs[i], errors[i]);
    }
    return Withdrawn(errors);
  }

  lemma CleanedUpSince(a: Disk, b: Disk, c: Disk, res: Reservation, errors: seq<CleanupFault>)
    requires CleanedUp(b, c, res, errors) && a.faults <= b.faults <= c.faults
    requires b.faults == a.faults ==> b.names == a.names
    ensures CleanedUp(a, c, res, errors)
  {
    ReportedLater(errors, a.faults, b.faults, c.faults, c.faults, res.path);
  }

  // ----- the files of one run -----

  /** `mine` are the files created so far: each is known only under its own path, and one that `main`
      holds no reservation for is bound only if it is `left`, the file of the reservation that raised. */
  ghost predicate Tracked(a: Disk, b: Disk, rs: seq<Reservation>, mine: map<nat, string>, left: Option<nat>) {
    && Evolved(a, b, mine) && Separate(rs) && AllReserved(b, rs)
    && b.reserved == a.reserved + mine.Keys && mine.Keys !! a.reserved
    && (forall i | 0 <= i < |rs| :: rs[i].identity in mine && mine[rs[i].identity] == rs[i].path)
    && (forall p | p in b.names && b.names[p] in mine :: p == mine[b.names[p]])
    && (forall id | id in mine && Some(id) != left && b.Bound(mine[id], id) ::
          exists i :: 0 <= i < |rs| && rs[i].identity == id)
  }

  /** A file may be left only by the one reservation that raised, the next after those held, and only
      because of the calls on its path that `Leaving` names. */
  ghost predicate LeftOver(a: Disk, b: Disk, paths: seq<string>, rs: seq<Reservation>, mine: map<nat, string>,
                           left: Option<nat>)
  {
    left.Some? ==>
      && |rs| < |paths| && left.value in mine && mine[left.value] == paths[|rs|]
      && (forall i | 0 <= i < |rs| :: rs[i].identity != left.value)
      && LeavingFault(a.faults, b.faults, paths[|rs|])
  }

  ghost predicate LeavingFault(before: seq<Fault>, after: seq<Fault>, path: string) {
    Leaving(Since(before, after), path)
  }

  lemma LeavingFaultLater(a: seq<Fault>, b: seq<Fault>, c: seq<Fault>, d: seq<Fault>, path: string)
    requires a <= b <= c <= d && LeavingFault(b, c, path)
    ensures LeavingFault(a, d, path) && a != d
  {
    hide Since;
    SinceConcat(a, b, d);
    SinceConcat(b, c, d);
    SinceOne(a, Interference);
    LeavingMore(Since(a, b), Since(b, c), Since(c, d), path);
  }

  lemma LeavingMore(before: seq<Fault>, raises: seq<Fault>, after: seq<Fault>, path: string)
    requires Leaving(raises, path)
    ensures Leaving(before + (raises + after), path) && before + (raises + after) != []
  {
    var all := before + (raises + after);
    if FstatFault(path) !in raises {
      var j, k :| 0 <= j < k < |raises| && raises[j] == StatFault(path) && Unremoving(raises[k], path);
      assert all[|before| + j] == raises[j] && all[|before| + k] == raises[k];
    }
  }

  lemma TrackedStart(a: Disk)
    requires a.Valid()
    ensures Tracked(a, a, [], map[], None)
  {
  }

  lemma TrackedValid(a: Disk, b: Disk, rs: seq<Reservation>, mine: map<nat, string>, left: Option<nat>)
    requires Tracked(a, b, rs, mine, left)
    ensures b.Valid() && Separate(rs) && AllReserved(b, rs) && a.faults <= b.faults
  {
  }

  lemma TrackedStep(a: Disk, b: Disk, c: Disk, rs: seq<Reservation>, mine: map<nat, string>, left: Option<nat>,
                    step: map<nat, string>)
    requires Tracked(a, b, rs, mine, left) && Evolved(b, c, step) && c.reserved == b.reserved
    requires forall id | id in step :: id in mine && mine[id] == step[id]
    ensures Tracked(a, c, rs, mine, left)
  {
    EvolvedWiden(b, c, step, mine);
    EvolvedTransitive(a, b, c, mine);
  }

  lemma TrackedMine(a: Disk, b: Disk, rs: seq<Reservation>, mine: map<nat, string>, left: Option<nat>)
    requires Tracked(a, b, rs, mine, left)
    ensures forall id | id in Mine(rs) :: id in mine && mine[id] == Mine(rs)[id]
  {
    forall id | id in Mine(rs) ensures id in mine && mine[id] == Mine(rs)[id] {
      var i :| 0 <= i < |rs| && rs[i].identity == id;
    }
  }

  /** Steps of other processes before the first reservation do not matter. */
  lemma TrackedFrom(a: Disk, b: Disk, c: Disk, rs: seq<Reservation>, mine: map<nat, string>, left: Option<nat>)
    requires Tracked(a, b, [], map[], None) && Tracked(b, c, rs, mine, left)
    ensures Tracked(a, c, rs, mine, left)
  {
    EvolvedWiden(a, b, map[], mine);
    EvolvedTransitive(a, b, c, mine);
  }

  /** The part of `Tracked` that concerns names, after one more file `id` has been created at `path`. */
  lemma TrackedNames(a: Disk, b: Disk, c: Disk, rs: seq<Reservation>, mine: map<nat, string>, left: Option<nat>,
                     path: string, id: nat)
    requires Tracked(a, b, rs, mine, left) && Evolved(b, c, map[id := path])
    requires c.reserved == b.reserved + {id} && b.next <= id
    requires forall p | p in c.names && c.names[p] == id :: p == path
    ensures id !in mine && Evolved(a, c, mine[id := path])
    ensures c.reserved == a.reserved + mine[id := path].Keys && mine[id := path].Keys !! a.reserved
    ensures forall p | p in c.names && c.names[p] in mine :: p == mine[c.names[p]] && b.Bound(p, c.names[p])
  {
    hide Evolved;
    var more := mine[id := path];
    EvolvedBasics(b, c, map[id := path]);
    assert id !in b.reserved;
    EvolvedNames(b, c, map[id := path]);
    EvolvedWiden(a, b, mine, more);
    EvolvedWiden(b, c, map[id := path], more);
    EvolvedTransitive(a, b, c, more);
    assert more.Keys == mine.Keys + {id};
  }

  lemma TrackedReserve(a: Disk, b: Disk, c: Disk, rs: seq<Reservation>, mine: map<nat, string>, left: Option<nat>,
                       res: Reservation)
    requires Tracked(a, b, rs, mine, left) && Created(b, c, res.path, res.identity) && res !in rs
    ensures Tracked(a, c, rs + [res], mine[res.identity := res.path], left)
  {
    hide Evolved;
    EvolvedWiden(b, c, map[], map[res.identity := res.path]);
    TrackedNames(a, b, c, rs, mine, left, res.path, res.identity);
    var more := mine[res.identity := res.path];
    forall id | id in more && Some(id) != left && c.Bound(more[id], id)
      ensures exists i :: 0 <= i < |rs + [res]| && (rs + [res])[i].identity == id
    {
      if id == res.identity {
        assert (rs + [res])[|rs|].identity == id;
      } else {
        var i :| 0 <= i < |rs| && rs[i].identity == id;
        assert (rs + [res])[i].identity == id;
      }
    }
  }

  /** Abandoning a new file is one step that adds it, still named at most by its own path. */
  lemma AbandonedStep(b: Disk, c: Disk, d: Disk, path: string, id: nat)
    requires Created(b, c, path, id) && Abandons(c, d, path, id)
    ensures Evolved(b, d, map[id := path]) && d.reserved == b.reserved + {id} && b.next <= id
    ensures forall p | p in d.names && d.names[p] == id :: p == path
    ensures d.Bound(path, id) ==> LeavingFault(c.faults, d.faults, path)
    ensures b.faults <= c.faults <= d.faults
  {
    LeftBehindIff(c, d, path, id);
    EvolvedNames(c, d, map[id := path]);
    EvolvedWiden(b, c, map[], map[id := path]);
    EvolvedTransitive(b, c, d, map[id := path]);
    EvolvedBasics(b, c, map[]);
    EvolvedBasics(c, d, map[id := path]);
    hide Evolved, Leaving, Since;
  }

  lemma TrackedAbandon(a: Disk, b: Disk, c: Disk, rs: seq<Reservation>, mine: map<nat, string>,
                       path: string, id: nat, leaves: bool)
    requires Tracked(a, b, rs, mine, None) && Evolved(b, c, map[id := path])
    requires c.reserved == b.reserved + {id} && b.next <= id
    requires forall p | p in c.names && c.names[p] == id :: p == path
    requires !leaves ==> !c.Bound(path, id)
    ensures Tracked(a, c, rs, mine[id := path], if leaves then Some(id) else None)
    ensures forall i | 0 <= i < |rs| :: rs[i].identity != id
  {
    hide Evolved;
    TrackedNames(a, b, c, rs, mine, None, path, id);
  }

  /** Undisturbed, the names added since disk `a` are these paths, which are distinct and were free. */
  ghost predicate Reserving(a: Disk, b: Disk, paths: seq<string>) {
    b.faults == a.faults ==> b.names.Keys == a.names.Keys + Elements(paths) && Free(a, paths)
  }

  ghost predicate Free(a: Disk, paths: seq<string>) {
    Distinct(paths) && forall p | p in paths :: p !in a.names
  }

  lemma ReservingNone(a: Disk, paths: seq<string>)
    ensures Reserving(a, a, paths[..0])
  {
  }

  lemma ReservingAll(a: Disk, b: Disk, paths: seq<string>)
    requires Reserving(a, b, paths[..|paths|])
    ensures b.faults == a.faults ==> Free(a, paths)
  {
    assert paths[..|paths|] == paths;
  }

  lemma ReservingStep(a: Disk, b: Disk, c: Disk, paths: seq<string>, n: nat, id: nat)
    requires n < |paths| && a.faults <= b.faults <= c.faults && Reserving(a, b, paths[..n])
    requires c.faults == b.faults ==> paths[n] !in b.names && c.names == b.names[paths[n] := id]
    ensures Reserving(a, c, paths[..n + 1])
  {
    assert paths[..n + 1] == paths[..n] + [paths[n]];
    assert forall i | 0 <= i < n :: paths[i] in Elements(paths[..n]);
  }

  lemma ReservingStops(a: Disk, b: Disk, paths: seq<string>, n: nat)
    requires n < |paths| && Reserving(a, b, paths[..n])
    ensures b.faults == a.faults && paths[n] in b.names ==> !Free(a, paths)
  {
    assert forall i | 0 <= i < n :: paths[i] == paths[..n][i];
    assert paths[n] in paths;
  }

  /** The reservations of `main`, one after the other, stopping at the first that raises. Undisturbed,
      they succeed exactly on distinct new paths. */
  method ReserveOutputs(fs: FileSystem, paths: seq<string>)
    returns (ok: bool, rs: seq<Reservation>, ghost mine: map<nat, string>, ghost left: Option<nat>)
    requires fs.disk.Valid()
    modifies fs
    ensures Tracked(old(fs.disk), fs.disk, rs, mine, left) && fresh(rs)
    ensures LeftOver(old(fs.disk), fs.disk, paths, rs, mine, left)
    ensures |rs| <= |paths| && forall i | 0 <= i < |rs| :: rs[i].path == paths[i]
    ensures ok ==> |rs| == |paths| && left == None
    ensures fs.disk.faults == old(fs.disk).faults ==>
      && AllReady(rs, fs.disk)
      && (ok <==> Free(old(fs.disk), paths))
  {
    hide Evolved, Tracked, Abandons, Reserving, LeavingFault, Leaving, Since;
    ghost var start := fs.disk;
    rs, mine, left := [], map[], None;
    TrackedStart(start);
    ReservingNone(start, paths);
    for n := 0 to |paths|
      invariant Tracked(start, fs.disk, rs, mine, None) && fresh(rs)
      invariant |rs| == n && forall i | 0 <= i < |rs| :: rs[i].path == paths[i]
      invariant Reserving(start, fs.disk, paths[..n]) && (fs.disk.faults == start.faults ==> AllReady(rs, fs.disk))
    {
      ghost var before := fs.disk;
      TrackedValid(start, before, rs, mine, None);
      var r, created := ReserveOutput(fs, paths[n]);
      match r {
        case Reserved(res) =>
          TrackedReserve(start, before, fs.disk, rs, mine, None, res);
          EvolvedBasics(before, fs.disk, map[]);
          ReservingStep(start, before, fs.disk, paths, n, res.identity);
          rs, mine := rs + [res], mine[res.identity := res.path];
        case Refused =>
          TrackedStep(start, before, fs.disk, rs, mine, None, map[]);
          ReservingStops(start, before, paths, n);
          return false, rs, mine, None;
        case Abandoned(id) =>
          ghost var stays := fs.disk.Bound(paths[n], id);
          AbandonedStep(before, created, fs.disk, paths[n], id);
          TrackedAbandon(start, before, fs.disk, rs, mine, paths[n], id, stays);
          if stays { LeavingFaultLater(start.faults, created.faults, fs.disk.faults, fs.disk.faults, paths[n]); }
          return false, rs, mine[id := paths[n]], if stays then Some(id) else None;
      }
    }
    ReservingAll(start, fs.disk, paths);
    ok := true;
  }
}
