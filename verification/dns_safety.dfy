/** No lost route update: the invariant of the route service and what it means once all is quiet. */
module DnsSafety {
  import opened Packing
  import opened RouteIndex
  import opened Subscriptions
  import opened DnsProtocol
  import opened Wrappers

  // ---------------------------------------------------------------- the invariant

  /** A pass of the publisher still to begin will read a change row of m. */
  ghost predicate Unread(s: State, m: Mod) {
    exists c :: c in s.rows && c.mod == m && WillBeRead(s, s.dbVersion, c.version)
  }

  /** The pass that is under way, if there is one, is about a change row of m. */
  ghost predicate RowDue(s: State, m: Mod) {
    exists c :: c in s.rows && c.mod == m && c.version <= s.version
  }

  /** The index does not yet have the current rows of m, and the publisher will load them. */
  ghost predicate LoadOwed(s: State, m: Mod) {
    s.pc != Booting && (Unread(s, m) || ((s.pc == Versioned || s.pc == Loaded(true)) && RowDue(s, m)))
  }

  /** A change of m is not yet published, and the publisher will do so. */
  ghost predicate PublishOwed(s: State, m: Mod) {
    s.pc != Booting &&
    (Unread(s, m)
     || ((s.pc == Versioned || s.pc == Loaded(true) || s.pc == Swapped) && RowDue(s, m))
     || (s.pc.Changed? && m in s.pc.list))
  }

  /** A push task is queued at t, or publish has not reached t yet. */
  predicate TaskComing(s: State, t: nat) {
    t < |s.threads| && (0 < s.threads[t].tasks || (s.pc.Sending? && s.pc.next <= t))
  }

  function ActivityOf(s: State, fd: Fd): Activity
    requires fd in s.conns
  {
    if s.conns[fd].owner < |s.threads| then s.threads[s.conns[fd].owner].activity else Waiting
  }

  /** The thread of fd is on its way to read the index for m. */
  predicate WillRead(s: State, fd: Fd, m: Mod)
    requires fd in s.conns
  {
    var a := ActivityOf(s, fd);
    a == Subscribing(fd, m) || (a.Pushing? && m in PendingFor(a.todo, fd))
  }

  /** The newest route for m that fd was sent or is about to be sent. */
  function Latest(s: State, fd: Fd, m: Mod): Option<Hosts>
    requires fd in s.conns
  {
    var a := ActivityOf(s, fd);
    if a.Fetched? && a.fd == fd && a.mod == m then Some(a.hosts)
    else if a.Pushing? && a.at.Holding? && a.at.fd == fd && a.at.mod == m then Some(a.at.hosts)
    else if m in s.conns[fd].seen then Some(s.conns[fd].seen[m])
    else None
  }

  predicate Queued(s: State, fd: Fd, m: Mod)
    requires fd in s.conns
  {
    m in PendingFor(s.pub, fd) && !InFlight(s, s.conns[fd].owner, fd) && TaskComing(s, s.conns[fd].owner)
  }

  /** Why fd is not missing an update of m. */
  ghost predicate Covered(s: State, fd: Fd, m: Mod)
    requires fd in s.conns
  {
    PublishOwed(s, m) || WillRead(s, fd, m) || Queued(s, fd, m) || Latest(s, fd, m) == Some(HostsOf(s.table, m))
  }

  ghost predicate DataFresh(s: State) {
    forall m :: LoadOwed(s, m) || Lookup(s.data, m) == HostsOf(s.table, m)
  }

  ghost predicate TempFresh(s: State) {
    s.pc.Loaded? ==> forall m :: Unread(s, m) || Lookup(s.temp, m) == HostsOf(s.table, m)
  }

  ghost predicate AllCovered(s: State) {
    forall fd, m :: fd in s.conns && m in s.conns[fd].mods && Addressable(m) ==> Covered(s, fd, m)
  }

  /** The subscription index mirrors the connections' own sets and has no empty sets. */
  ghost predicate Mirrored(s: State) {
    && NoEmptySets(s.sub)
    && forall fd, m :: fd in Subscribers(s.sub, m) <==> fd in s.conns && m in s.conns[fd].mods
  }

  ghost predicate Owned(s: State, fd: Fd, t: nat) {
    fd in s.conns && s.conns[fd].owner == t
  }

  /** A running callback works on live connections of its own thread. */
  ghost predicate ActivityOk(s: State, t: nat, a: Activity) {
    match a
    case Waiting => true
    case Subscribing(fd, m) => Owned(s, fd, t)
    case Fetched(fd, m, _) => Owned(s, fd, t)
    case Pushing(todo, at) =>
      && (forall fd :: fd in todo ==> Owned(s, fd, t))
      && (at.Holding? ==> Owned(s, at.fd, t))
      && (at.Sent? ==> Owned(s, at.fd, t))
  }

  ghost predicate ThreadsOk(s: State) {
    && (forall t: nat :: t < |s.threads| ==> ActivityOk(s, t, s.threads[t].activity))
    && (forall fd :: fd in s.conns ==> s.conns[fd].owner < |s.threads|)
  }

  ghost predicate Inv(s: State) {
    Mirrored(s) && ThreadsOk(s) && NoEmptySets(s.pub) && DataFresh(s) && TempFresh(s) && AllCovered(s)
  }

  // ---------------------------------------------------------------- helpers

  lemma {:induction false} ModsUpToMembers(rows: seq<Change>, v: int)
    ensures forall m :: m in ModsUpTo(rows, v) <==> exists c :: c in rows && c.mod == m && c.version <= v
  {
    if rows != [] {
      ModsUpToMembers(rows[1..], v);
      assert forall c :: c in rows <==> c == rows[0] || c in rows[1..];
    }
  }

  lemma {:induction false} ChangesAboveMembers(rows: seq<Change>, v: int)
    ensures forall c :: c in ChangesAbove(rows, v) <==> c in rows && v < c.version
  {
    if rows != [] {
      ChangesAboveMembers(rows[1..], v);
      assert forall c :: c in rows <==> c == rows[0] || c in rows[1..];
    }
  }

  lemma RepackAddressable(m: Mod)
    ensures Addressable(Repack(m)) <==> Addressable(m)
    ensures Addressable(m) ==> Repack(m) == m
  {
    hide Pack;
    RepackIff(m);
    UnpackPack(High(m), Low(m));
  }

  /** A step that changes neither data nor table nor the publisher's debts keeps the index fresh. */
  ghost predicate SameDatabase(s: State, s': State) {
    s'.table == s.table && s'.rows == s.rows && s'.version == s.version && s'.dbVersion == s.dbVersion && s'.pc == s.pc
    && s'.data == s.data && s'.temp == s.temp
  }

  lemma SameDatabaseKeeps(s: State, s': State)
    requires SameDatabase(s, s')
    ensures DataFresh(s) == DataFresh(s') && TempFresh(s) == TempFresh(s')
    ensures forall m :: PublishOwed(s, m) == PublishOwed(s', m) && LoadOwed(s, m) == LoadOwed(s', m)
  {
    assert forall m :: Unread(s, m) == Unread(s', m) && RowDue(s, m) == RowDue(s', m);
  }

  /** What a reader finds in the index is current or about to be published. */
  lemma ReadIsCovered(s: State, m: Mod)
    requires DataFresh(s)
    ensures PublishOwed(s, m) || Lookup(s.data, m) == HostsOf(s.table, m)
  {
    assert LoadOwed(s, m) ==> PublishOwed(s, m);
  }

  // ---------------------------------------------------------------- the database and the publisher

  /** After an edit a pass will load the table and publish m, because of a row of m from before or from
      the edit. */
  ghost predicate Noted(s: State, e: Step, m: Mod)
    requires e.Edit?
  {
    s.pc != Booting
    && exists c :: c in s.rows + RowsFor(e.changed, e.version) && c.mod == m
                   && (WillBeRead(s, e.version, c.version) || (s.pc == Versioned && c.version <= s.version))
  }

  /** Without such a row: the index has, or is about to have, what the edited table says about m, and every
      client of m has it or is about to be told. */
  ghost predicate Caught(s: State, e: Step, m: Mod)
    requires e.Edit?
  {
    var due := RowDue(Apply(s, e), m);
    && (Lookup(s.data, m) == HostsOf(e.table, m) || (s.pc == Loaded(true) && due))
    && (s.pc.Loaded? ==> Lookup(s.temp, m) == HostsOf(e.table, m))
    && forall fd :: fd in s.conns && m in s.conns[fd].mods && Addressable(m) ==>
         || ((s.pc == Loaded(true) || s.pc == Swapped) && due) || (s.pc.Changed? && m in s.pc.list)
         || WillRead(s, fd, m) || Queued(s, fd, m) || Latest(s, fd, m) == Some(HostsOf(e.table, m))
  }

  lemma RowsAfterEdit(s: State, e: Step, m: Mod)
    requires e.Edit?
    ensures var s' := Apply(s, e);
            && (s.pc != Booting ==>
                  (Noted(s, e, m) <==> Unread(s', m) || (s.pc == Versioned && RowDue(s', m))))
            && (RowDue(s, m) ==> RowDue(s', m))
  {
    var s' := Apply(s, e);
    if RowDue(s, m) {
      var c :| c in s.rows && c.mod == m && c.version <= s.version;
      assert c in s'.rows;
    }
  }

  /** What the invariant says about one module. */
  ghost predicate FreshFor(s: State, m: Mod) {
    && (LoadOwed(s, m) || Lookup(s.data, m) == HostsOf(s.table, m))
    && (s.pc.Loaded? ==> Unread(s, m) || Lookup(s.temp, m) == HostsOf(s.table, m))
    && forall fd :: fd in s.conns && m in s.conns[fd].mods && Addressable(m) ==> Covered(s, fd, m)
  }

  lemma EditOfOneIff(s: State, e: Step, m: Mod)
    requires FreshFor(s, m) && e.Edit?
    ensures FreshFor(Apply(s, e), m) <==>
            Noted(s, e, m) || if Unread(s, m) then Caught(s, e, m) else HostsOf(e.table, m) == HostsOf(s.table, m)
  {
    RowsAfterEdit(s, e, m);
    hide HostsOf, Addressable, Noted, Unread, RowDue, Lookup;
  }

  /** An edit of any kind keeps the guarantee exactly if each module has a row that will be read, or had none
      and is not changed, or had some that will not be read any more and is caught up with anyway. */
  lemma EditKeepsIff(s: State, e: Step)
    requires Inv(s) && e.Edit?
    ensures Inv(Apply(s, e)) <==>
            forall m :: Noted(s, e, m)
                        || if Unread(s, m) then Caught(s, e, m) else HostsOf(e.table, m) == HostsOf(s.table, m)
  {
    var s' := Apply(s, e);
    forall m
      ensures FreshFor(s', m) <==>
              Noted(s, e, m) || if Unread(s, m) then Caught(s, e, m) else HostsOf(e.table, m) == HostsOf(s.table, m)
    {
      assert FreshFor(s, m);
      EditOfOneIff(s, e, m);
    }
    hide Covered, Noted, Caught, Unread, LoadOwed, HostsOf, Addressable;
    SameMirror(s, s');
    assert ThreadsOk(s');
    assert Inv(s') <==> forall m :: FreshFor(s', m);
  }

  /** An edit by the rules. */
  lemma EditKeeps(s: State, e: Step)
    requires Inv(s) && e.Edit? && Obeys(s, e, FreshVersions) && Obeys(s, e, ChangeRows) && Obeys(s, e, QuietBoot)
    ensures Inv(Apply(s, e))
  {
    hide HostsOf, Inv;
    forall m
      ensures Noted(s, e, m) || (!Unread(s, m) && HostsOf(e.table, m) == HostsOf(s.table, m))
    {
      RowsStayReadable(s, e, m);
    }
    EditKeepsIff(s, e);
  }

  /** A row of m from before the edit will be read after it. */
  ghost predicate StillRead(s: State, v: int, m: Mod) {
    exists c :: c in s.rows && c.mod == m
                && (WillBeRead(s, v, c.version) || (s.pc == Versioned && c.version <= s.version))
  }

  lemma RowsStayReadable(s: State, e: Step, m: Mod)
    requires e.Edit? && Obeys(s, e, FreshVersions) && s.pc != Booting
    ensures Noted(s, e, m) <==> m in e.changed || StillRead(s, e.version, m)
    ensures Unread(s, m) ==> StillRead(s, e.version, m)
  {
    hide HostsOf;
    var added := RowsFor(e.changed, e.version);
    if m in e.changed {
      var i :| 0 <= i < |e.changed| && e.changed[i] == m;
      assert added[i] == Change(m, e.version) && added[i] in s.rows + added;
    }
    if StillRead(s, e.version, m) {
      var c :| c in s.rows && c.mod == m
               && (WillBeRead(s, e.version, c.version) || (s.pc == Versioned && c.version <= s.version));
      assert c in s.rows + added;
    }
  }

  /** The rule on change rows, exactly: a changed module without a row of its own is harmless only if an
      older row will be read anyway. */
  lemma ChangeRowsKeepIff(s: State, e: Step)
    requires Inv(s) && e.Edit? && Obeys(s, e, FreshVersions) && Obeys(s, e, QuietBoot)
    ensures Inv(Apply(s, e)) <==>
            forall m :: HostsOf(e.table, m) != HostsOf(s.table, m) ==>
                          m in e.changed || StillRead(s, e.version, m)
  {
    hide HostsOf, Inv;
    forall m
      ensures Noted(s, e, m) <==> m in e.changed || StillRead(s, e.version, m)
    {
      RowsStayReadable(s, e, m);
    }
    EditKeepsIff(s, e);
  }

  /** The rule on versions, exactly where it matters most: an edit under the version that the publisher has
      read last, in a quiet moment, must change nothing. Before the publisher reads a version any number
      of edits may share it. */
  lemma ReusedVersionKeepsIff(s: State, e: Step)
    requires Inv(s) && e.Edit? && s.pc != Booting && s.pc != Versioned && s.version == s.dbVersion == e.version
    ensures Inv(Apply(s, e)) <==> forall m :: HostsOf(e.table, m) == HostsOf(s.table, m)
  {
    hide HostsOf, Inv;
    assert forall m :: !Noted(s, e, m) && !Unread(s, m);
    EditKeepsIff(s, e);
  }

  /** The rule on the start, exactly: an edit before the change table is cleared must change nothing. */
  lemma BootEditKeepsIff(s: State, e: Step)
    requires Inv(s) && e.Edit? && s.pc == Booting
    ensures Inv(Apply(s, e)) <==> forall m :: HostsOf(e.table, m) == HostsOf(s.table, m)
  {
    hide HostsOf, Addressable;
    forall m
      ensures !Noted(s, e, m) && (Caught(s, e, m) <==> HostsOf(e.table, m) == HostsOf(s.table, m))
    {
      assert FreshFor(s, m);
    }
    hide Inv;
    EditKeepsIff(s, e);
  }

  lemma BootKeeps(s: State, ok: bool)
    requires Inv(s) && Enabled(s, Boot(ok))
    ensures Inv(Apply(s, Boot(ok)))
  {
    hide HostsOf, Addressable;
    var s' := Apply(s, Boot(ok));
    forall fd, m | fd in s.conns && m in s.conns[fd].mods && Addressable(m)
      ensures Covered(s', fd, m)
    {
      assert Covered(s, fd, m);
    }
  }

  lemma LoadVersionKeeps(s: State)
    requires Inv(s) && Enabled(s, LoadVersion)
    ensures Inv(Apply(s, LoadVersion))
  {
    hide HostsOf, Addressable;
    var s' := Apply(s, LoadVersion);
    assert forall m :: Unread(s, m) ==> RowDue(s', m);
    forall fd, m | fd in s.conns && m in s.conns[fd].mods && Addressable(m)
      ensures Covered(s', fd, m)
    {
      assert Covered(s, fd, m);
    }
  }

  lemma LoadDataKeeps(s: State, ok: bool)
    requires Inv(s) && Enabled(s, LoadData(ok)) && Obeys(s, LoadData(ok), DataLoads)
    ensures Inv(Apply(s, LoadData(ok)))
  {
    hide HostsOf, Addressable, Group;
    GroupAgreesWithTable(s.table);
    var s' := Apply(s, LoadData(ok));
    assert forall m :: Unread(s, m) == Unread(s', m) && RowDue(s, m) == RowDue(s', m);
    forall fd, m | fd in s.conns && m in s.conns[fd].mods && Addressable(m)
      ensures Covered(s', fd, m)
    {
      assert Covered(s, fd, m);
    }
  }

  /** A failed table query of a pass keeps the guarantee exactly if the index is current anyway wherever no
      later pass will load it. */
  lemma FailedLoadKeepsIff(s: State)
    requires Inv(s) && s.pc == Versioned
    ensures Inv(Apply(s, LoadData(false))) <==>
            forall m :: RowDue(s, m) && !Unread(s, m) ==> Lookup(s.data, m) == HostsOf(s.table, m)
  {
    hide HostsOf, Addressable;
    var s' := Apply(s, LoadData(false));
    SameMirror(s, s');
    forall m
      ensures Unread(s, m) == Unread(s', m) && RowDue(s, m) == RowDue(s', m)
      ensures PublishOwed(s, m) == PublishOwed(s', m)
    {
    }
    forall fd, m | fd in s.conns && m in s.conns[fd].mods && Addressable(m)
      ensures Covered(s', fd, m)
    {
      assert Covered(s, fd, m);
    }
    assert Inv(s') <==> DataFresh(s');
  }

  lemma SwapKeeps(s: State)
    requires Inv(s) && Enabled(s, Swap)
    ensures Inv(Apply(s, Swap))
  {
    hide HostsOf, Addressable;
    var s' := Apply(s, Swap);
    assert forall m :: Unread(s, m) == Unread(s', m) && RowDue(s, m) == RowDue(s', m);
    forall fd, m | fd in s.conns && m in s.conns[fd].mods && Addressable(m)
      ensures Covered(s', fd, m)
    {
      assert Covered(s, fd, m);
    }
  }

  lemma LoadChangesKeeps(s: State, ok: bool)
    requires Inv(s) && Enabled(s, LoadChanges(ok)) && Obeys(s, LoadChanges(ok), ChangesLoad)
    ensures Inv(Apply(s, LoadChanges(ok)))
  {
    hide HostsOf, Addressable;
    var s' := Apply(s, LoadChanges(ok));
    ModsUpToMembers(s.rows, s.version);
    assert forall m :: Unread(s, m) == Unread(s', m);
    assert forall m :: RowDue(s, m) ==> Unread(s, m) || m in s'.pc.list;
    forall fd, m | fd in s.conns && m in s.conns[fd].mods && Addressable(m)
      ensures Covered(s', fd, m)
    {
      assert Covered(s, fd, m);
    }
  }

  /** A failed change query keeps the guarantee exactly if every client that should have been told holds the
      current route already, or is about to read it, or has a push of it coming. */
  lemma FailedChangesKeepIff(s: State)
    requires Inv(s) && s.pc == Swapped
    ensures Inv(Apply(s, LoadChanges(false))) <==>
            forall fd, m :: fd in s.conns && m in s.conns[fd].mods && Addressable(m)
                            && RowDue(s, m) && !Unread(s, m) ==>
              WillRead(s, fd, m) || Queued(s, fd, m) || Latest(s, fd, m) == Some(HostsOf(s.table, m))
  {
    hide HostsOf, Addressable;
    var s' := Apply(s, LoadChanges(false));
    SameMirror(s, s');
    forall m
      ensures Unread(s, m) == Unread(s', m) && PublishOwed(s', m) == Unread(s, m)
      ensures PublishOwed(s, m) == (Unread(s, m) || RowDue(s, m))
    {
    }
    forall fd, m | fd in s.conns && m in s.conns[fd].mods && Addressable(m)
      ensures Covered(s', fd, m) <==>
              (RowDue(s, m) && !Unread(s, m) ==>
                WillRead(s, fd, m) || Queued(s, fd, m) || Latest(s, fd, m) == Some(HostsOf(s.table, m)))
    {
      assert Covered(s, fd, m);
    }
    assert Inv(s') <==> AllCovered(s');
  }

  lemma PublishKeeps(s: State)
    requires Inv(s) && Enabled(s, Publish) && Obeys(s, Publish, NoCollision)
    ensures Inv(Apply(s, Publish))
  {
    hide HostsOf, Addressable, Published;
    var s' := Apply(s, Publish);
    PublishedEntries(s.sub, s.pub, Elements(s.pc.list));
    assert forall m :: Unread(s, m) == Unread(s', m);
    forall fd, m | fd in s.conns && m in s.conns[fd].mods && Addressable(m)
      ensures Covered(s', fd, m)
    {
      assert Covered(s, fd, m);
      var t: nat := s.conns[fd].owner;
      if m in s.pc.list {
        assert fd in Subscribers(s.sub, m);
        assert m in Affected(s.sub, Elements(s.pc.list), fd);
        assert InFlight(s, t, fd) ==> WillRead(s', fd, m);
      }
    }
  }

  lemma SendTaskKeeps(s: State)
    requires Inv(s) && Enabled(s, SendTask)
    ensures Inv(Apply(s, SendTask))
  {
    hide HostsOf, Addressable;
    var s' := Apply(s, SendTask);
    assert forall m :: Unread(s, m) == Unread(s', m);
    assert forall t: nat :: t < |s.threads| ==> s'.threads[t].activity == s.threads[t].activity;
    forall fd, m | fd in s.conns && m in s.conns[fd].mods && Addressable(m)
      ensures Covered(s', fd, m)
    {
      assert Covered(s, fd, m);
    }
  }

  lemma RemoveChangesKeeps(s: State, ok: bool)
    requires Inv(s) && Enabled(s, RemoveChanges(ok))
    ensures Inv(Apply(s, RemoveChanges(ok)))
  {
    hide HostsOf, Addressable;
    var s' := Apply(s, RemoveChanges(ok));
    ChangesAboveMembers(s.rows, s.version);
    assert forall m :: Unread(s, m) ==> Unread(s', m);
    forall fd, m | fd in s.conns && m in s.conns[fd].mods && Addressable(m)
      ensures Covered(s', fd, m)
    {
      assert Covered(s, fd, m);
    }
  }

  // ---------------------------------------------------------------- the loop threads

  lemma OpenKeeps(s: State, fd: Fd, t: nat)
    requires Inv(s) && Enabled(s, Open(fd, t))
    ensures Inv(Apply(s, Open(fd, t)))
  {
    hide HostsOf, Addressable;
    var s' := Apply(s, Open(fd, t));
    SameDatabaseKeeps(s, s');
    forall f, m | f in s'.conns && m in s'.conns[f].mods && Addressable(m)
      ensures Covered(s', f, m)
    {
      assert Covered(s, f, m);
    }
  }

  lemma AbandonedEntries(sub: SubMap, mods: set<Mod>, fd: Fd)
    requires NoEmptySets(sub)
    ensures NoEmptySets(Abandoned(sub, mods, fd))
    ensures forall m :: Subscribers(Abandoned(sub, mods, fd), m) == Subscribers(sub, m) - if m in mods then {fd} else {}
  {
  }

  lemma CloseKeeps(s: State, fd: Fd)
    requires Inv(s) && Enabled(s, Close(fd))
    ensures Inv(Apply(s, Close(fd)))
  {
    hide HostsOf, Addressable, Abandoned;
    var s' := Apply(s, Close(fd));
    SameDatabaseKeeps(s, s');
    AbandonedEntries(s.sub, s.conns[fd].mods, fd);
    forall f, m | f in s'.conns && m in s'.conns[f].mods && Addressable(m)
      ensures Covered(s', f, m)
    {
      assert Covered(s, f, m);
    }
  }

  lemma RequestKeeps(s: State, fd: Fd, mod: Mod)
    requires Inv(s) && Enabled(s, Request(fd, mod))
    ensures Inv(Apply(s, Request(fd, mod)))
  {
    hide HostsOf, Addressable;
    var s' := Apply(s, Request(fd, mod));
    SameDatabaseKeeps(s, s');
    forall f, m | f in s'.conns && m in s'.conns[f].mods && Addressable(m)
      ensures Covered(s', f, m)
    {
      if (f, m) != (fd, mod) {
        assert Covered(s, f, m);
      }
    }
    forall f, m
      ensures f in Subscribers(s'.sub, m) <==> f in s'.conns && m in s'.conns[f].mods
    {
      assert f in Subscribers(s.sub, m) <==> f in s.conns && m in s.conns[f].mods;
    }
    assert NoEmptySets(s'.sub);
    assert ThreadsOk(s');
  }

  lemma FetchKeeps(s: State, t: nat)
    requires Inv(s) && Enabled(s, Fetch(t))
    ensures Inv(Apply(s, Fetch(t)))
  {
    hide HostsOf, Addressable;
    var s' := Apply(s, Fetch(t));
    SameDatabaseKeeps(s, s');
    ReadIsCovered(s, s.threads[t].activity.mod);
    forall f, m | f in s'.conns && m in s'.conns[f].mods && Addressable(m)
      ensures Covered(s', f, m)
    {
      assert Covered(s, f, m);
    }
  }

  lemma ReplyKeeps(s: State, t: nat, length: nat, cut: bool)
    requires Inv(s) && Enabled(s, Reply(t, length, cut))
    requires Obeys(s, Reply(t, length, cut), SendsAccepted) && Obeys(s, Reply(t, length, cut), AnswersFit)
    ensures Inv(Apply(s, Reply(t, length, cut)))
  {
    hide HostsOf, Addressable;
    var s' := Apply(s, Reply(t, length, cut));
    SameDatabaseKeeps(s, s');
    forall f, m | f in s'.conns && m in s'.conns[f].mods && Addressable(m)
      ensures Covered(s', f, m)
    {
      assert Covered(s, f, m);
    }
  }

  lemma StartPushKeeps(s: State, t: nat)
    requires Inv(s) && Enabled(s, StartPush(t))
    ensures Inv(Apply(s, StartPush(t)))
  {
    hide HostsOf, Addressable;
    var s' := Apply(s, StartPush(t));
    SameDatabaseKeeps(s, s');
    forall f, m | f in s'.conns && m in s'.conns[f].mods && Addressable(m)
      ensures Covered(s', f, m)
    {
      assert Covered(s, f, m);
    }
  }

  lemma PushFetchKeeps(s: State, t: nat, fd: Fd, mod: Mod)
    requires Inv(s) && Enabled(s, PushFetch(t, fd, mod))
    ensures Inv(Apply(s, PushFetch(t, fd, mod)))
  {
    hide HostsOf, Addressable, Repack;
    var s' := Apply(s, PushFetch(t, fd, mod));
    SameDatabaseKeeps(s, s');
    ReadIsCovered(s, mod);
    RepackAddressable(mod);
    forall f, m | f in s'.conns && m in s'.conns[f].mods && Addressable(m)
      ensures Covered(s', f, m)
    {
      assert Covered(s, f, m);
    }
  }

  lemma PushSendKeeps(s: State, t: nat, length: nat, cut: bool)
    requires Inv(s) && Enabled(s, PushSend(t, length, cut))
    requires Obeys(s, PushSend(t, length, cut), SendsAccepted) && Obeys(s, PushSend(t, length, cut), AnswersFit)
    ensures Inv(Apply(s, PushSend(t, length, cut)))
  {
    hide HostsOf, Addressable, Repack;
    var s' := Apply(s, PushSend(t, length, cut));
    SameDatabaseKeeps(s, s');
    RepackAddressable(s.threads[t].activity.at.mod);
    forall f, m | f in s'.conns && m in s'.conns[f].mods && Addressable(m)
      ensures Covered(s', f, m)
    {
      assert Covered(s, f, m);
    }
  }

  lemma PushEraseKeeps(s: State, t: nat)
    requires Inv(s) && Enabled(s, PushErase(t))
    ensures Inv(Apply(s, PushErase(t)))
  {
    hide HostsOf, Addressable;
    var s' := Apply(s, PushErase(t));
    SameDatabaseKeeps(s, s');
    forall f, m | f in s'.conns && m in s'.conns[f].mods && Addressable(m)
      ensures Covered(s', f, m)
    {
      assert Covered(s, f, m);
    }
  }

  lemma EndPushKeeps(s: State, t: nat)
    requires Inv(s) && Enabled(s, EndPush(t))
    ensures Inv(Apply(s, EndPush(t)))
  {
    hide HostsOf, Addressable;
    var s' := Apply(s, EndPush(t));
    SameDatabaseKeeps(s, s');
    forall f, m | f in s'.conns && m in s'.conns[f].mods && Addressable(m)
      ensures Covered(s', f, m)
    {
      assert Covered(s, f, m);
    }
  }

  lemma WriteKeeps(s: State, fd: Fd, n: nat)
    requires Inv(s) && Enabled(s, Write(fd, n))
    ensures Inv(Apply(s, Write(fd, n)))
  {
    hide HostsOf, Addressable;
    var s' := Apply(s, Write(fd, n));
    SameDatabaseKeeps(s, s');
    SameMirror(s, s');
    forall f, m | f in s'.conns && m in s'.conns[f].mods && Addressable(m)
      ensures Covered(s', f, m)
    {
      assert Covered(s, f, m);
    }
  }

  // ---------------------------------------------------------------- messages that are lost, exactly

  /** The message is refused, or its client never takes it in. */
  predicate IsLost(s: State, e: Step)
    requires Enabled(s, e) && (e.Reply? || e.PushSend?)
  {
    IsRefused(s, e) || IsUnheard(s, e)
  }

  /** Only what thread t is doing has changed, and perhaps the state of output buffers. */
  ghost predicate OnlyActivity(s: State, s': State, t: nat, a: Activity) {
    && t < |s.threads| && SameDatabase(s, s') && s'.sub == s.sub && s'.pub == s.pub
    && s'.threads == s.threads[t := s.threads[t].(activity := a)]
    && s'.conns.Keys == s.conns.Keys
    && forall fd :: fd in s.conns ==>
         s'.conns[fd].owner == s.conns[fd].owner && s'.conns[fd].mods == s.conns[fd].mods
         && s'.conns[fd].seen == s.conns[fd].seen
  }

  function AfterLoss(a: Activity): Activity {
    if a.Pushing? && a.at.Holding? then Pushing(a.todo, Sent(a.at.fd)) else Waiting
  }

  lemma LostIsNotTold(s: State, fd: Fd, mod: Mod, hosts: Hosts, length: nat, cut: bool)
    requires fd in s.conns
    requires Framing.Refused(s.conns[fd].queued, length) || s.conns[fd].deaf || Framing.Fatal(length, cut)
    ensures var s' := Told(s, fd, mod, hosts, length, cut);
            && s' == s.(conns := s'.conns) && s'.conns.Keys == s.conns.Keys
            && forall f :: f in s.conns ==>
                 s'.conns[f].owner == s.conns[f].owner && s'.conns[f].mods == s.conns[f].mods
                 && s'.conns[f].seen == s.conns[f].seen
  {
  }

  lemma LossChangesOnlyActivity(s: State, e: Step)
    requires Enabled(s, e) && (e.Reply? || e.PushSend?) && IsLost(s, e)
    ensures OnlyActivity(s, Apply(s, e), e.t, AfterLoss(s.threads[e.t].activity))
  {
    hide Told, Framing.Refused, Framing.Fatal, Repack;
    var a := s.threads[e.t].activity;
    if e.Reply? {
      LostIsNotTold(s, a.fd, a.mod, a.hosts, e.length, e.cut);
    } else {
      LostIsNotTold(s, a.at.fd, Repack(a.at.mod), a.at.hosts, e.length, e.cut);
    }
  }

  lemma OnlyActivityKeepsTheRest(s: State, s': State, t: nat, a: Activity)
    requires Inv(s) && OnlyActivity(s, s', t, a) && ActivityOk(s, t, a)
    ensures Mirrored(s') && ThreadsOk(s') && NoEmptySets(s'.pub) && DataFresh(s') && TempFresh(s')
  {
    hide HostsOf, Addressable, Covered;
    SameDatabaseKeeps(s, s');
    SameMirror(s, s');
    assert ActivityOk(s', t, a);
  }

  /** The one pair that a lost message may leave uncovered. */
  predicate Concerns(a: Activity, fd: Fd, m: Mod) {
    (a.Fetched? && a.fd == fd && a.mod == m) || (a.Pushing? && a.at.Holding? && a.at.fd == fd && a.at.mod == m)
  }

  lemma LossKeepsOthers(s: State, s': State, t: nat, f: Fd, m: Mod)
    requires t < |s.threads| && OnlyActivity(s, s', t, AfterLoss(s.threads[t].activity))
    requires s.threads[t].activity.Fetched? || (s.threads[t].activity.Pushing? && s.threads[t].activity.at.Holding?)
    requires f in s.conns && Covered(s, f, m) && !Concerns(s.threads[t].activity, f, m)
    ensures Covered(s', f, m)
  {
    hide HostsOf, PublishOwed;
    SameDatabaseKeeps(s, s');
  }

  /** What can still make a lost message good. */
  ghost predicate MadeGood(s: State, t: nat, fd: Fd, m: Mod)
    requires t < |s.threads| && fd in s.conns
  {
    var a := s.threads[t].activity;
    || PublishOwed(s, m)
    || (m in s.conns[fd].seen && s.conns[fd].seen[m] == HostsOf(s.table, m))
    || (if a.Pushing? then m in PendingFor(a.todo, fd) else m in PendingFor(s.pub, fd) && TaskComing(s, t))
  }

  lemma LossKeepsHolderIff(s: State, s': State, t: nat, f: Fd, m: Mod)
    requires t < |s.threads| && OnlyActivity(s, s', t, AfterLoss(s.threads[t].activity))
    requires f in s.conns && s.conns[f].owner == t && Concerns(s.threads[t].activity, f, m)
    ensures Covered(s', f, m) <==> MadeGood(s, t, f, m)
  {
    hide HostsOf, PublishOwed;
    SameDatabaseKeeps(s, s');
  }

  /** A message that is lost, a push or an answer, refused or too long or fatal as an empty one, is forgotten:
      a push is erased all the same. It keeps the guarantee of no lost update exactly when the module is owed
      a newer change, the client happens to hold its current route, or a push of it is still to come: for a
      push from the same task, for an answer from one that is queued. */
  lemma LossKeepsIff(s: State, e: Step, m: Mod)
    requires Inv(s) && Enabled(s, e) && (e.Reply? || e.PushSend?) && IsLost(s, e)
    requires m == if e.Reply? then s.threads[e.t].activity.mod else s.threads[e.t].activity.at.mod
    ensures var fd := Receiver(s, e);
            Inv(Apply(s, e)) <==> (m in s.conns[fd].mods && Addressable(m) ==> MadeGood(s, e.t, fd, m))
  {
    var fd, s', a := Receiver(s, e), Apply(s, e), s.threads[e.t].activity;
    LossChangesOnlyActivity(s, e);
    assert ActivityOk(s, e.t, a);
    hide HostsOf, Addressable, Covered, Mirrored, NoEmptySets, DataFresh, TempFresh, MadeGood;
    hide Apply, Enabled, ThreadsOk;
    OnlyActivityKeepsTheRest(s, s', e.t, AfterLoss(a));
    LossKeepsHolderIff(s, s', e.t, fd, m);
    forall f, k | f in s.conns && k in s.conns[f].mods && Addressable(k) && (f, k) != (fd, m)
      ensures Covered(s', f, k)
    {
      LossKeepsOthers(s, s', e.t, f, k);
    }
  }

  lemma SameMirror(s: State, s': State)
    requires Mirrored(s) && s'.sub == s.sub && s'.conns.Keys == s.conns.Keys
    requires forall fd :: fd in s.conns ==> s'.conns[fd].mods == s.conns[fd].mods
    ensures Mirrored(s')
  {
    forall f, m
      ensures f in Subscribers(s'.sub, m) <==> f in s'.conns && m in s'.conns[f].mods
    {
      assert f in Subscribers(s.sub, m) <==> f in s.conns && m in s.conns[f].mods;
    }
  }

  // ---------------------------------------------------------------- runs

  lemma StepKeeps(s: State, e: Step)
    requires Inv(s) && Enabled(s, e) && forall rule :: Obeys(s, e, rule)
    ensures Inv(Apply(s, e))
  {
    hide Inv, Enabled, Apply, Obeys;
    assert Obeys(s, e, FreshVersions) && Obeys(s, e, ChangeRows) && Obeys(s, e, QuietBoot) && Obeys(s, e, DataLoads)
           && Obeys(s, e, ChangesLoad) && Obeys(s, e, NoCollision) && Obeys(s, e, SendsAccepted)
           && Obeys(s, e, AnswersFit);
    match e
    case Edit(_, _, _) => EditKeeps(s, e);
    case Boot(ok) => BootKeeps(s, ok);
    case LoadVersion => LoadVersionKeeps(s);
    case LoadData(ok) => LoadDataKeeps(s, ok);
    case Swap => SwapKeeps(s);
    case LoadChanges(ok) => LoadChangesKeeps(s, ok);
    case Publish => PublishKeeps(s);
    case SendTask => SendTaskKeeps(s);
    case RemoveChanges(ok) => RemoveChangesKeeps(s, ok);
    case Open(fd, t) => OpenKeeps(s, fd, t);
    case Close(fd) => CloseKeeps(s, fd);
    case Request(fd, mod) => RequestKeeps(s, fd, mod);
    case Fetch(t) => FetchKeeps(s, t);
    case Reply(t, length, cut) => ReplyKeeps(s, t, length, cut);
    case StartPush(t) => StartPushKeeps(s, t);
    case PushFetch(t, fd, mod) => PushFetchKeeps(s, t, fd, mod);
    case PushSend(t, length, cut) => PushSendKeeps(s, t, length, cut);
    case PushErase(t) => PushEraseKeeps(s, t);
    case EndPush(t) => EndPushKeeps(s, t);
    case Write(fd, n) => WriteKeeps(s, fd, n);
  }

  lemma InitialHolds(s: State)
    requires Initial(s)
    ensures Inv(s)
  {
    GroupAgreesWithTable(s.table);
  }

  /** The invariant holds along every run that obeys the rules, whatever the interleaving. */
  lemma {:induction false} RunKeeps(s: State, es: seq<Step>)
    requires Inv(s) && CanRun(s, es) && Disciplined(s, es, None)
    ensures Inv(Run(s, es))
    decreases |es|
  {
    hide Inv, Enabled, Apply, Obeys;
    if es != [] {
      StepKeeps(s, es[0]);
      RunKeeps(Apply(s, es[0]), es[1..]);
    }
  }

  /** No lost route update. At every moment of a run that obeys the rules, each subscribed connection
      either has the newest route of the module, or the publisher still has to publish it, or the
      connection's thread is about to read it, or a push task for it is on its way. */
  lemma NoLostUpdate(s: State, es: seq<Step>, fd: Fd, m: Mod)
    requires Initial(s) && CanRun(s, es) && Disciplined(s, es, None)
    requires var s' := Run(s, es); fd in s'.conns && m in s'.conns[fd].mods && Addressable(m)
    ensures var s' := Run(s, es);
            PublishOwed(s', m) || WillRead(s', fd, m) || Queued(s', fd, m)
              || Latest(s', fd, m) == Some(HostsOf(s'.table, m))
  {
    hide CanRun, Disciplined, Run;
    InitialHolds(s);
    RunKeeps(s, es);
    assert Covered(Run(s, es), fd, m);
  }

  /** So whenever the service comes to rest, every client holds the current route of every module it
      asked for. */
  lemma QuietMeansUpToDate(s: State, es: seq<Step>, fd: Fd, m: Mod)
    requires Initial(s) && CanRun(s, es) && Disciplined(s, es, None)
    requires var s' := Run(s, es); Quiet(s') && fd in s'.conns && m in s'.conns[fd].mods && Addressable(m)
    ensures UpToDate(Run(s, es), fd, m)
  {
    hide CanRun, Disciplined, Run, Addressable, HostsOf;
    NoLostUpdate(s, es, fd, m);
    InitialHolds(s);
    RunKeeps(s, es);
    var s' := Run(s, es);
    assert !Unread(s', m);
  }
}
