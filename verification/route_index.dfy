/** The route table of the DNS service: the index built from the RouteData rows, the two buffers it
    is kept in, and the queries the publisher thread makes. */
module RouteIndex {
  import opened Packing
  import opened Wrappers

  datatype Row = Row(modid: Int32, cmdid: Int32, ip: UInt32, port: Int32)
  datatype Change = Change(mod: UInt64, version: int)

  type RouteMap = map<UInt64, set<UInt64>>

  function ModOf(r: Row): UInt64 {
    Pack(r.modid, r.cmdid)
  }

  function HostOf(r: Row): UInt64 {
    Pack(r.ip, r.port)
  }

  /** The hosts the table lists for a module, as a plain filter of its rows. */
  function HostsOf(rows: seq<Row>, mod: UInt64): set<UInt64> {
    set r | r in rows && ModOf(r) == mod :: HostOf(r)
  }

  function Lookup(m: RouteMap, mod: UInt64): set<UInt64> {
    if mod in m then m[mod] else {}
  }

  function Inserted(m: RouteMap, r: Row): RouteMap {
    m[ModOf(r) := Lookup(m, ModOf(r)) + {HostOf(r)}]
  }

  /** The index that one pass over the rows builds. */
  function Group(rows: seq<Row>): RouteMap {
    if rows == [] then map[]
    else Inserted(Group(rows[..|rows| - 1]), rows[|rows| - 1])
  }

  /** The index answers every module as the table does, and lists no module without rows. */
  lemma {:induction false} GroupAgreesWithTable(rows: seq<Row>)
    ensures forall mod :: Lookup(Group(rows), mod) == HostsOf(rows, mod)
    ensures forall mod :: mod in Group(rows) <==> exists r :: r in rows && ModOf(r) == mod
  {
    hide Pack;
    if rows != [] {
      var last := rows[|rows| - 1];
      GroupAgreesWithTable(rows[..|rows| - 1]);
      assert rows == rows[..|rows| - 1] + [last];
      forall mod
        ensures HostsOf(rows, mod) == HostsOf(rows[..|rows| - 1], mod) + if ModOf(last) ==
            mod then {HostOf(last)} else {}
      {
      }
    }
  }

  /** The rows of the database, as far as the service reads them. */
  class Database {
    var routeData: seq<Row>
    var routeVersion: Option<int>
    var routeChange: seq<Change>

    constructor (routeData: seq<Row>, routeVersion: Option<int>, routeChange: seq<Change>)
      ensures this.routeData == routeData && this.routeVersion == routeVersion && this.routeChange == routeChange
    {
      this.routeData, this.routeVersion, this.routeChange := routeData, routeVersion, routeChange;
    }
  }

  function ModsUpTo(changes: seq<Change>, version: int): seq<UInt64> {
    if changes == [] then []
    else (if changes[0].version <= version then [changes[0].mod] else []) + ModsUpTo(changes[1..], version)
  }

  function ChangesAbove(changes: seq<Change>, version: int): seq<Change> {
    if changes == [] then []
    else (if changes[0].version <= version then [] else [changes[0]]) + ChangesAbove(changes[1..], version)
  }

  function ModsIn(changes: seq<Change>): seq<UInt64> {
    if changes == [] then [] else [changes[0].mod] + ModsIn(changes[1..])
  }

  /** Every change row is either announced at a version or kept for a later one, and never both. */
  lemma {:induction false} AnnouncedOrKept(changes: seq<Change>, version: int)
    ensures multiset(ModsIn(changes)) == multiset(ModsUpTo(changes, version))
                                         + multiset(ModsIn(ChangesAbove(changes, version)))
  {
    if changes != [] {
      var rest := changes[1..];
      AnnouncedOrKept(rest, version);
      var mod, kept := changes[0].mod, ChangesAbove(rest, version);
      if changes[0].version <= version {
        assert ModsUpTo(changes, version) == [mod] + ModsUpTo(rest, version);
        assert ChangesAbove(changes, version) == kept;
      } else {
        assert ModsUpTo(changes, version) == ModsUpTo(rest, version);
        assert ChangesAbove(changes, version) == [changes[0]] + kept;
        assert ([changes[0]] + kept)[1..] == kept;
        assert ModsIn(ChangesAbove(changes, version)) == [mod] + ModsIn(kept);
      }
    }
  }

  lemma {:induction false} KeptCount(changes: seq<Change>, version: int, c: Change)
    ensures multiset(ChangesAbove(changes, version))[c] == if version < c.version then multiset(changes)[c] else 0
  {
    if changes != [] {
      KeptCount(changes[1..], version, c);
      assert changes == [changes[0]] + changes[1..];
    }
  }

  /** The announced modules come in the order of their rows. */
  lemma {:induction false} UpToInOrder(changes: seq<Change>, c: Change, version: int)
    ensures ModsUpTo([], version) == []
    ensures ModsUpTo(changes + [c], version)
            == ModsUpTo(changes, version) + if c.version <= version then [c.mod] else []
  {
    if changes == [] {
      assert changes + [c] == [c] && [c][1..] == [];
    } else {
      UpToInOrder(changes[1..], c, version);
      assert (changes + [c])[1..] == changes[1..] + [c];
    }
  }

  lemma {:induction false} NoneUpTo(changes: seq<Change>, version: int)
    ensures ModsUpTo(changes, version) == [] <==> forall c :: c in changes ==> version < c.version
  {
    if changes != [] {
      assert changes == [changes[0]] + changes[1..];
      NoneUpTo(changes[1..], version);
    }
  }

  lemma {:induction false} ChangesConcat(before: seq<Change>, after: seq<Change>, version: int)
    ensures ChangesAbove(before + after, version) == ChangesAbove(before, version) + ChangesAbove(after, version)
    ensures ModsIn(before + after) == ModsIn(before) + ModsIn(after)
  {
    if before == [] {
      assert before + after == after;
    } else {
      assert (before + after)[1..] == before[1..] + after;
      ChangesConcat(before[1..], after, version);
    }
  }

  lemma Missing<T>(announced: multiset<T>, kept: multiset<T>, lost: multiset<T>)
    ensures announced + kept == announced + kept + lost <==> lost == multiset{}
  {
    if announced + kept == announced + kept + lost {
      assert |announced + kept + lost| == |announced + kept| + |lost|;
    }
  }

  /** A pass reads the change rows up to its version and deletes them with a second query. What is
      recorded between the two is in no list: the pass announces or keeps every change, exactly as
      often as it was recorded, if and only if all those rows are of later versions. */
  lemma PassLosesNothingIff(before: seq<Change>, between: seq<Change>, version: int)
    ensures multiset(ModsUpTo(before, version)) + multiset(ModsIn(ChangesAbove(before + between, version)))
            == multiset(ModsIn(before + between))
            <==> forall c :: c in between ==> version < c.version
  {
    hide ModsUpTo, ModsIn, ChangesAbove;
    AnnouncedOrKept(before, version);
    AnnouncedOrKept(between, version);
    NoneUpTo(between, version);
    ChangesConcat(before, between, version);
    var kept, added := ChangesAbove(before, version), ChangesAbove(between, version);
    ChangesConcat(kept, added, version);
    var lost := ModsUpTo(between, version);
    Missing(multiset(ModsUpTo(before, version)), multiset(ModsIn(kept)) + multiset(ModsIn(added)), multiset(lost));
    assert multiset(lost) == multiset{} <==> lost == [] by {
      if lost != [] {
        assert lost[0] in multiset(lost);
      }
    }
  }

  class Buffer {
    var routes: RouteMap

    constructor ()
      ensures routes == map[]
    {
      routes := map[];
    }
  }

  /** Route: readers use the data buffer, the publisher fills the temp buffer and swaps the two. Each
      query may fail; whether it does is an argument. */
  class Route {
    var data: Buffer
    var temp: Buffer
    var version: int

    ghost predicate Valid()
      reads this
    {
      data != temp
    }

    constructor (db: Database)
      ensures Valid() && fresh(data) && fresh(temp)
      ensures data.routes == Group(db.routeData) && version == 0
    {
      data := new Buffer();
      temp := new Buffer();
      version := 0;
      new;
      FillFrom(data, db.routeData);
    }

    static method FillFrom(b: Buffer, rows: seq<Row>)
      requires b.routes == map[]
      modifies b
      ensures b.routes == Group(rows)
    {
      hide Pack;
      for i := 0 to |rows|
        invariant b.routes == Group(rows[..i])
      {
        var row := rows[i];
        var key := Pack(row.modid, row.cmdid);
        var value := Pack(row.ip, row.port);
        assert rows[..i + 1][..i] == rows[..i];
        b.routes := b.routes[key := (if key in b.routes then b.routes[key] else {}) + {value}];
      }
      assert rows[..|rows|] == rows;
    }

    method GetHosts(modid: Int32, cmdid: Int32) returns (hosts: set<UInt64>)
      ensures hosts == Lookup(data.routes, Pack(modid, cmdid))
    {
      var key := Pack(modid, cmdid);
      hosts := {};
      if key in data.routes {
        hosts := data.routes[key];
      }
    }

    method LoadVersion(db: Database, ok: bool) returns (ret: int)
      modifies this`version
      ensures ret == if !ok || db.routeVersion == None then -1
                     else if db.routeVersion.value == old(version) then 0 else 1
      ensures version == if ret == 1 then db.routeVersion.value else old(version)
    {
      if !ok {
        return -1;
      }
      match db.routeVersion
      case None =>
        return -1;
      case Some(newVersion) =>
        if newVersion == version {
          return 0;
        }
        version := newVersion;
        return 1;
    }

    /** Fills the temp buffer; readers cannot see it. A failed query leaves it empty. */
    method LoadRouteData(db: Database, ok: bool) returns (ret: int)
      requires Valid()
      modifies temp
      ensures ret == if ok then 0 else -1
      ensures temp.routes == if ok then Group(db.routeData) else map[]
    {
      temp.routes := map[];
      if !ok {
        return -1;
      }
      FillFrom(temp, db.routeData);
      return 0;
    }

    method Swap()
      requires Valid()
      modifies this
      ensures Valid() && data == old(temp) && temp == old(data) && version == old(version)
    {
      var t := data;
      data := temp;
      temp := t;
    }

    method LoadChanges(db: Database, ok: bool, changes: seq<UInt64>) returns (changes': seq<UInt64>)
      ensures changes' == changes + if ok then ModsUpTo(db.routeChange, version) else []
    {
      changes' := changes;
      if !ok {
        return;
      }
      var rows := db.routeChange;
      var all := ModsUpTo(rows, version);
      for i := 0 to |rows|
        invariant changes' + ModsUpTo(rows[i..], version) == changes + all
      {
        var row := rows[i];
        assert rows[i..][1..] == rows[i + 1..];
        if row.version <= version {
          changes' := changes' + [row.mod];
        }
      }
    }

    /** Deletes the announced rows, or all of them: a row survives, as often as it is there, exactly
        where the query fails or spares its version. */
    method RemoveChanges(db: Database, ok: bool, removeAll: bool)
      modifies db`routeChange
      ensures forall c :: multiset(db.routeChange)[c]
                          == if !ok || (!removeAll && version < c.version) then multiset(old(db.routeChange))[c] else 0
      ensures db.routeChange == if !ok then old(db.routeChange) else if removeAll then []
                                else ChangesAbove(old(db.routeChange), version)
    {
      forall c {
        KeptCount(db.routeChange, version, c);
      }
      if ok {
        db.routeChange := if removeAll then [] else ChangesAbove(db.routeChange, version);
      }
    }
  }
}
