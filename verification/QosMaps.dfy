/** The compressed map from egress ports to SC-to-SC tables (Topology/fabricdata.c:632-713;
    IbAccess/Common/Inc/stl_helper.h:2234-2268).

    A port mask is the set of its ports. Memory exhaustion is not modelled. */
module QosMaps {
  import opened Options
  import opened Widths

  /** A table gives a service channel for each of 32 service channels. */
  type Table = t: seq<nat> | |t| == 32 witness seq(32, i => 0)

  /** Ports that share a table. */
  datatype Entry = Entry(ports: set<nat>, table: Table)

  type Entries = seq<Entry>

  // ---------------------------------------------------------------- looking up

  function Lookup(es: Entries, port: nat): Option<Table> {
    if es == [] then None else if port in es[0].ports then Some(es[0].table) else Lookup(es[1..], port)
  }

  /** No port is in two entries, no two entries have one table, and no entry is empty. */
  ghost predicate Inv(es: Entries) {
    && (forall i :: 0 <= i < |es| ==> es[i].ports != {})
    && (forall i, j :: 0 <= i < j < |es| ==> es[i].table != es[j].table && es[i].ports !! es[j].ports)
  }

  lemma {:induction false} LookupAt(es: Entries, port: nat, i: nat)
    requires i <= |es| && forall k :: 0 <= k < i ==> port !in es[k].ports
    ensures i == |es| ==> Lookup(es, port) == None
    ensures i < |es| && port in es[i].ports ==> Lookup(es, port) == Some(es[i].table)
  {
    if i > 0 {
      LookupAt(es[1..], port, i - 1);
    }
  }

  /** Port p has table t. */
  ghost predicate Maps(es: Entries, p: nat, t: Table) {
    exists i :: 0 <= i < |es| && p in es[i].ports && es[i].table == t
  }

  lemma {:induction false} LookupFinds(es: Entries, port: nat)
    ensures Lookup(es, port).Some? ==> Maps(es, port, Lookup(es, port).value)
    ensures Lookup(es, port).None? ==> forall i :: 0 <= i < |es| ==> port !in es[i].ports
  {
    if es != [] && port !in es[0].ports {
      LookupFinds(es[1..], port);
      if Lookup(es, port).Some? {
        var i :| 0 <= i < |es[1..]| && port in es[1..][i].ports && es[1..][i].table == Lookup(es, port).value;
        assert es[i + 1] == es[1..][i];
      } else {
        assert forall i :: 1 <= i < |es| ==> es[i] == es[1..][i - 1];
      }
    }
  }

  /** The list is a map from ports to tables, and Lookup reads it. */
  lemma {:induction false} LookupIffMaps(es: Entries, p: nat, t: Table)
    requires Inv(es)
    ensures Lookup(es, p) == Some(t) <==> Maps(es, p, t)
  {
    LookupFinds(es, p);
    if Maps(es, p, t) {
      var i :| 0 <= i < |es| && p in es[i].ports && es[i].table == t;
      LookupAt(es, p, i);
    }
  }

  // ---------------------------------------------------------------- adding

  /** What the pass over the entries makes of one of them. */
  function Passed(e: Entry, outport: nat, table: Table): Entry {
    if e.table == table then e.(ports := e.ports + {outport}) else e.(ports := e.ports - {outport})
  }

  function Pass(es: Entries, outport: nat, table: Table): (r: Entries)
    ensures |r| == |es| && forall i :: 0 <= i < |es| ==> r[i] == Passed(es[i], outport, table)
  {
    seq(|es|, i requires 0 <= i < |es| => Passed(es[i], outport, table))
  }

  predicate ShowsNone(ports: set<nat>, last: nat) {
    forall p :: p in ports ==> p > last
  }

  /** The entry loses the port and then shows no port up to last. */
  predicate Vacated(e: Entry, last: nat, outport: nat, table: Table) {
    e.table != table && outport in e.ports && ShowsNone(e.ports - {outport}, last)
  }

  /** The last of the first n entries to be vacated. */
  function LastVacated(es: Entries, n: nat, last: nat, outport: nat, table: Table): (r: Option<nat>)
    requires n <= |es|
    ensures r.Some? ==> r.value < n && Vacated(es[r.value], last, outport, table)
    ensures r.None? ==> forall i :: 0 <= i < n ==> !Vacated(es[i], last, outport, table)
  {
    if n == 0 then None else if Vacated(es[n - 1], last, outport, table) then Some(n - 1)
    else LastVacated(es, n - 1, last, outport, table)
  }

  predicate Holds(es: Entries, table: Table) {
    exists i :: 0 <= i < |es| && es[i].table == table
  }

  /** The entries after adding: a vacated entry is dropped, or reused if no entry has the table. */
  function Added(es: Entries, last: nat, outport: nat, table: Table): Entries {
    var passed, v := Pass(es, outport, table), LastVacated(es, |es|, last, outport, table);
    if Holds(es, table) then if v.Some? then passed[..v.value] + passed[v.value + 1..] else passed
    else if v.Some? then passed[v.value := Entry(passed[v.value].ports + {outport}, table)]
    else passed + [Entry({outport}, table)]
  }

  /** An entry is vacated with ports above last still in it. */
  ghost predicate Overlooked(es: Entries, last: nat, outport: nat, table: Table) {
    exists i :: 0 <= i < |es| && Vacated(es[i], last, outport, table) && es[i].ports != {outport}
  }

  /** The port now has the table and every other port what it had. */
  ghost predicate Updates(es: Entries, es': Entries, outport: nat, table: Table) {
    forall p, t :: Maps(es', p, t) <==> if p == outport then t == table else Maps(es, p, t)
  }

  /** As Inv, but the entry at v, if any, is empty. */
  ghost predicate InvBut(es: Entries, v: Option<nat>) {
    && (forall i :: 0 <= i < |es| ==> (es[i].ports == {} <==> v == Some(i)))
    && (forall i, j :: 0 <= i < j < |es| ==> es[i].table != es[j].table && es[i].ports !! es[j].ports)
  }

  lemma {:induction false} PassKeeps(es: Entries, last: nat, outport: nat, table: Table)
    requires Inv(es) && !Overlooked(es, last, outport, table)
    ensures InvBut(Pass(es, outport, table), LastVacated(es, |es|, last, outport, table))
  {
    hide LastVacated, ShowsNone;
    var v := LastVacated(es, |es|, last, outport, table);
    forall i | 0 <= i < |es|
      ensures Pass(es, outport, table)[i].ports == {} <==> v == Some(i)
    {
      VacatedIff(es, last, outport, table, i);
    }
  }

  lemma {:induction false} VacatedIff(es: Entries, last: nat, outport: nat, table: Table, i: nat)
    requires Inv(es) && !Overlooked(es, last, outport, table) && i < |es|
    ensures Passed(es[i], outport, table).ports == {} <==> Vacated(es[i], last, outport, table)
    ensures Vacated(es[i], last, outport, table) <==> LastVacated(es, |es|, last, outport, table) == Some(i)
  {
    hide LastVacated;
    var v := LastVacated(es, |es|, last, outport, table);
    if Vacated(es[i], last, outport, table) && v.Some? {
      assert outport in es[v.value].ports && outport in es[i].ports;
    }
  }

  /** The pass settles the port if some entry has the table, and otherwise frees it. */
  lemma {:induction false} PassMaps(es: Entries, outport: nat, table: Table, p: nat, t: Table)
    requires Inv(es)
    ensures Maps(Pass(es, outport, table), p, t) <==> if p == outport then t == table && Holds(es, table) else Maps(es, p, t)
  {
    var passed := Pass(es, outport, table);
    if Maps(passed, p, t) {
      var i :| 0 <= i < |passed| && p in passed[i].ports && passed[i].table == t;
      assert p != outport ==> p in es[i].ports;
    }
    if p != outport && Maps(es, p, t) {
      var i :| 0 <= i < |es| && p in es[i].ports && es[i].table == t;
      assert p in passed[i].ports && passed[i].table == t;
    }
    if p == outport && t == table && Holds(es, table) {
      var i :| 0 <= i < |es| && es[i].table == table;
      assert p in passed[i].ports && passed[i].table == t;
    }
  }

  lemma {:induction false} DropKeeps(es: Entries, v: nat)
    requires v < |es| && InvBut(es, Some(v))
    ensures Inv(es[..v] + es[v + 1..])
    ensures forall p, t :: Maps(es[..v] + es[v + 1..], p, t) <==> Maps(es, p, t)
  {
    var dropped := es[..v] + es[v + 1..];
    forall i | 0 <= i < |dropped|
      ensures dropped[i] == es[if i < v then i else i + 1]
    {
    }
    forall p, t
      ensures Maps(dropped, p, t) <==> Maps(es, p, t)
    {
      if Maps(es, p, t) {
        var i :| 0 <= i < |es| && p in es[i].ports && es[i].table == t;
        assert dropped[if i < v then i else i - 1] == es[i];
      }
    }
  }

  /** One entry takes the port with the new table: a vacated one, or one put at the end. */
  lemma {:induction false} NewEntryMaps(es: Entries, es': Entries, v: nat, outport: nat, table: Table)
    requires |es| <= |es'| && v < |es'| && es'[v] == Entry({outport}, table) && forall i :: 0 <= i < |es'| && i != v ==> i < |es| && es'[i] == es[i]
    requires InvBut(es, if v < |es| then Some(v) else None) && !Holds(es, table) && forall i :: 0 <= i < |es| ==> outport !in es[i].ports
    ensures Inv(es')
    ensures forall p, t :: Maps(es', p, t) <==> if p == outport then t == table else Maps(es, p, t)
  {
    forall p, t
      ensures Maps(es', p, t) <==> if p == outport then t == table else Maps(es, p, t)
    {
      if p != outport && Maps(es, p, t) {
        var i :| 0 <= i < |es| && p in es[i].ports && es[i].table == t;
        assert es'[i] == es[i];
      }
    }
  }

  /** Unless a vacated entry still has ports above last, adding updates the map for the
      port and no other, and keeps the list compressed. */
  lemma {:induction false} AddUpdates(es: Entries, last: nat, outport: nat, table: Table)
    requires Inv(es) && !Overlooked(es, last, outport, table)
    ensures Inv(Added(es, last, outport, table)) && Updates(es, Added(es, last, outport, table), outport, table)
  {
    hide Inv, Overlooked, Maps, LastVacated;
    var passed, v := Pass(es, outport, table), LastVacated(es, |es|, last, outport, table);
    var es' := Added(es, last, outport, table);
    PassKeeps(es, last, outport, table);
    forall p, t
      ensures Maps(passed, p, t) <==> if p == outport then t == table && Holds(es, table) else Maps(es, p, t)
    {
      PassMaps(es, outport, table, p, t);
    }
    if Holds(es, table) {
      if v.Some? {
        DropKeeps(passed, v.value);
      } else {
        NoneVacated(passed);
      }
    } else {
      PassHolds(es, outport, table);
      NewEntryMaps(passed, es', if v.Some? then v.value else |passed|, outport, table);
    }
  }

  lemma {:induction false} NoneVacated(es: Entries)
    requires InvBut(es, None)
    ensures Inv(es)
  {
  }

  lemma {:induction false} PassHolds(es: Entries, outport: nat, table: Table)
    requires !Holds(es, table)
    ensures !Holds(Pass(es, outport, table), table)
    ensures forall i :: 0 <= i < |es| ==> outport !in Pass(es, outport, table)[i].ports
  {
  }

  lemma {:induction false} TableLost(es: Entries, last: nat, outport: nat, table: Table, i: nat)
    requires Inv(es) && i < |es| && Vacated(es[i], last, outport, table)
    ensures var es' := Added(es, last, outport, table); forall k :: 0 <= k < |es'| ==> es'[k].table != es[i].table
    ensures es[i].ports != {outport} ==> exists p :: p in es[i].ports && p != outport
  {
    hide LastVacated;
    var v := LastVacated(es, |es|, last, outport, table);
    assert outport in es[v.value].ports && outport in es[i].ports && v.value == i;
    if es[i].ports != {outport} {
      assert es[i].ports - {outport} != {};
      var p :| p in es[i].ports - {outport};
    }
  }

  /** Otherwise some other port loses its table: adding is an update exactly when no vacated entry
      still has ports above last. */
  lemma {:induction false} AddUpdatesIff(es: Entries, last: nat, outport: nat, table: Table)
    requires Inv(es)
    ensures Updates(es, Added(es, last, outport, table), outport, table) <==> !Overlooked(es, last, outport, table)
  {
    if !Overlooked(es, last, outport, table) {
      AddUpdates(es, last, outport, table);
    } else {
      var i :| 0 <= i < |es| && Vacated(es[i], last, outport, table) && es[i].ports != {outport};
      TableLost(es, last, outport, table, i);
      var p :| p in es[i].ports && p != outport;
      assert Maps(es, p, es[i].table) && !Maps(Added(es, last, outport, table), p, es[i].table);
    }
  }

  // ---------------------------------------------------------------- whole runs

  /** The last port counted on a node: the 16-bit port count is cut to the 8 bits of the count's
      argument. */
  function LastCounted(numPorts: Uint16): nat {
    numPorts % UINT8
  }

  /** A port is given a table. */
  datatype Give = Give(port: nat, table: Table)

  function AddedAll(numPorts: Uint16, gives: seq<Give>): Entries {
    if gives == [] then []
    else
      var g := gives[|gives| - 1];
      Added(AddedAll(numPorts, gives[..|gives| - 1]), LastCounted(numPorts), g.port, g.table)
  }

  /** The plain map from ports to tables, where the last one given wins. */
  function Plain(gives: seq<Give>): map<nat, Table> {
    if gives == [] then map[]
    else
      var g := gives[|gives| - 1];
      Plain(gives[..|gives| - 1])[g.port := g.table]
  }

  ghost predicate MapsAs(es: Entries, m: map<nat, Table>) {
    forall p, t :: Maps(es, p, t) <==> p in m && m[p] == t
  }

  /** The port gives up a table that other ports still have, but no port that is counted. */
  ghost predicate Neglects(m: map<nat, Table>, last: nat, g: Give) {
    && g.port in m && m[g.port] != g.table
    && (exists q :: q in m && q != g.port && m[q] == m[g.port])
    && forall q :: q in m && q != g.port && m[q] == m[g.port] ==> q > last
  }

  /** No step of the run neglects a port. */
  ghost predicate NeverNeglects(numPorts: Uint16, gives: seq<Give>) {
    gives == []
    || (var n := |gives| - 1; NeverNeglects(numPorts, gives[..n]) && !Neglects(Plain(gives[..n]), LastCounted(numPorts), gives[n]))
  }

  /** After every step of the run the list is the plain map. */
  ghost predicate AlwaysPlain(numPorts: Uint16, gives: seq<Give>) {
    MapsAs(AddedAll(numPorts, gives), Plain(gives)) && (gives == [] || AlwaysPlain(numPorts, gives[..|gives| - 1]))
  }

  /** What is overlooked can be read off the map. */
  lemma {:induction false} OverlookedIffNeglected(es: Entries, m: map<nat, Table>, last: nat, g: Give)
    requires Inv(es) && MapsAs(es, m)
    ensures Overlooked(es, last, g.port, g.table) <==> Neglects(m, last, g)
  {
    if Overlooked(es, last, g.port, g.table) {
      var i :| 0 <= i < |es| && Vacated(es[i], last, g.port, g.table) && es[i].ports != {g.port};
      assert Maps(es, g.port, es[i].table);
      SharersAre(es, m, i, g.port);
      assert es[i].ports - {g.port} != {};
      var q :| q in es[i].ports - {g.port};
      assert q in m && q != g.port && m[q] == m[g.port];
      forall q | q in m && q != g.port && m[q] == m[g.port]
        ensures q > last
      {
        assert q in es[i].ports - {g.port};
      }
    } else if g.port in m && m[g.port] != g.table {
      assert Maps(es, g.port, m[g.port]);
      var i :| 0 <= i < |es| && g.port in es[i].ports && es[i].table == m[g.port];
      SharersAre(es, m, i, g.port);
    }
  }

  /** The ports of an entry are those with its table. */
  lemma {:induction false} SharersAre(es: Entries, m: map<nat, Table>, i: nat, p: nat)
    requires Inv(es) && MapsAs(es, m) && i < |es| && p in es[i].ports
    ensures p in m && m[p] == es[i].table
    ensures forall q :: q in es[i].ports <==> q in m && m[q] == m[p]
  {
    assert Maps(es, p, es[i].table);
    forall q
      ensures q in es[i].ports <==> q in m && m[q] == m[p]
    {
      if q in es[i].ports {
        assert Maps(es, q, es[i].table);
      }
      if q in m && m[q] == m[p] {
        assert Maps(es, q, es[i].table);
      }
    }
  }

  lemma {:induction false} UpdatesIffMapsAs(es: Entries, es': Entries, m: map<nat, Table>, g: Give)
    requires MapsAs(es, m)
    ensures Updates(es, es', g.port, g.table) <==> MapsAs(es', m[g.port := g.table])
  {
    hide Maps;
    var m' := m[g.port := g.table];
    if MapsAs(es', m') {
      forall p, t
        ensures Maps(es', p, t) <==> if p == g.port then t == g.table else Maps(es, p, t)
      {
      }
    }
  }

  /** The list is the plain map throughout a run exactly when no step neglects a port; it stays
      compressed then. */
  lemma {:induction false} PlainIffNothingNeglected(numPorts: Uint16, gives: seq<Give>)
    ensures AlwaysPlain(numPorts, gives) <==> NeverNeglects(numPorts, gives)
    ensures NeverNeglects(numPorts, gives) ==> Inv(AddedAll(numPorts, gives))
  {
    hide Added, Overlooked, Neglects, Updates, MapsAs, Inv;
    if gives == [] {
      EmptyIsPlain();
    } else {
      var n := |gives| - 1;
      PlainIffNothingNeglected(numPorts, gives[..n]);
      if NeverNeglects(numPorts, gives[..n]) {
        var es, m, g := AddedAll(numPorts, gives[..n]), Plain(gives[..n]), gives[n];
        var last := LastCounted(numPorts);
        OverlookedIffNeglected(es, m, last, g);
        AddUpdatesIff(es, last, g.port, g.table);
        UpdatesIffMapsAs(es, Added(es, last, g.port, g.table), m, g);
        if !Overlooked(es, last, g.port, g.table) {
          AddUpdates(es, last, g.port, g.table);
        }
      }
    }
  }

  lemma {:induction false} EmptyIsPlain()
    ensures Inv([]) && MapsAs([], map[])
  {
  }

  lemma {:induction false} ReadsPlain(es: Entries, m: map<nat, Table>, p: nat)
    requires Inv(es) && MapsAs(es, m)
    ensures Lookup(es, p) == if p in m then Some(m[p]) else None
  {
    hide Inv, Maps;
    if p in m {
      LookupIffMaps(es, p, m[p]);
    } else if Lookup(es, p).Some? {
      LookupIffMaps(es, p, Lookup(es, p).value);
    }
  }

  /** Over ports that are counted nothing is neglected. */
  lemma {:induction false} CountedNotNeglected(numPorts: Uint16, gives: seq<Give>)
    requires forall i :: 0 <= i < |gives| ==> gives[i].port <= LastCounted(numPorts)
    ensures NeverNeglects(numPorts, gives) && forall p :: p in Plain(gives) ==> p <= LastCounted(numPorts)
  {
    if gives != [] {
      CountedNotNeglected(numPorts, gives[..|gives| - 1]);
    }
  }

  /** Over any run that neglects no port, such as one over counted ports, lookup agrees with the
      plain map. */
  lemma {:induction false} LastGivenWins(numPorts: Uint16, gives: seq<Give>)
    requires NeverNeglects(numPorts, gives) || forall i :: 0 <= i < |gives| ==> gives[i].port <= LastCounted(numPorts)
    ensures Inv(AddedAll(numPorts, gives))
    ensures forall p :: Lookup(AddedAll(numPorts, gives), p) == if p in Plain(gives) then Some(Plain(gives)[p]) else None
  {
    hide Inv, Added, Lookup, MapsAs, Neglects, NeverNeglects;
    if forall i :: 0 <= i < |gives| ==> gives[i].port <= LastCounted(numPorts) {
      CountedNotNeglected(numPorts, gives);
    }
    PlainIffNothingNeglected(numPorts, gives);
    forall p
      ensures Lookup(AddedAll(numPorts, gives), p) == if p in Plain(gives) then Some(Plain(gives)[p]) else None
    {
      ReadsPlain(AddedAll(numPorts, gives), Plain(gives), p);
    }
  }

  /** Ports 200 and 201 of a switch with 300 ports share a table. The count is cut to 44, so giving
      200 another table gives it to 201 as well. */
  lemma {:induction false} CutCountLosesPort(a: Table, b: Table)
    requires a != b
    ensures var gives := [Give(200, a), Give(201, a), Give(200, b)];
            && AddedAll(300, gives) == [Entry({200, 201}, b)]
            && Lookup(AddedAll(300, gives), 201) == Some(b) && 201 in Plain(gives) && Plain(gives)[201] == a
  {
    var one, two, three := [Give(200, a)], [Give(200, a), Give(201, a)], [Give(200, a), Give(201, a), Give(200, b)];
    assert LastCounted(300) == 44;
    assert one[..0] == [] && two[..1] == one && three[..2] == two;
    FirstGiven(a);
    SecondGiven(a);
    PortBeyondRangeFollows(a, b, 44);
    assert Plain(two) == Plain(one)[201 := a] && Plain(three) == Plain(two)[200 := b];
  }

  lemma {:induction false} FirstGiven(a: Table)
    ensures AddedAll(300, [Give(200, a)]) == [Entry({200}, a)]
  {
    assert [Give(200, a)][..0] == [];
  }

  lemma {:induction false} SecondGiven(a: Table)
    ensures Added([Entry({200}, a)], 44, 201, a) == [Entry({200, 201}, a)]
  {
    var es := [Entry({200}, a)];
    assert es[0].table == a && {200} + {201} == {200, 201};
    assert Pass(es, 201, a)[0] == Entry({200, 201}, a);
    assert !Vacated(es[0], 44, 201, a) && LastVacated(es, 0, 44, 201, a) == None && LastVacated(es, 1, 44, 201, a) == None;
  }

  /** Two ports after the last counted that share a table: giving one another gives it to both. */
  lemma {:induction false} PortBeyondRangeFollows(a: Table, b: Table, last: nat)
    requires a != b && last < 200
    ensures Added([Entry({200, 201}, a)], last, 200, b) == [Entry({200, 201}, b)]
  {
    var es := [Entry({200, 201}, a)];
    assert {200, 201} - {200} == {201};
    assert Pass(es, 200, b)[0] == Entry({201}, a);
    assert Pass(es, 200, b) == [Entry({201}, a)];
    assert {201} + {200} == {200, 201};
    assert Vacated(es[0], last, 200, b) && LastVacated(es, 1, last, 200, b) == Some(0);
  }

  // ---------------------------------------------------------------- the switch port's data

  class QOSData {
    const numPorts: Uint16
    var sc2scMaps: Entries

    constructor (numPorts: Uint16)
      ensures this.numPorts == numPorts && sc2scMaps == [] && Inv(sc2scMaps)
    {
      this.numPorts, sc2scMaps := numPorts, [];
    }

    method QOSDataLookupSCSCMap(outport: nat) returns (r: Option<Table>)
      ensures r == Lookup(sc2scMaps, outport)
    {
      var i := 0;
      while i < |sc2scMaps|
        invariant 0 <= i <= |sc2scMaps| && forall k :: 0 <= k < i ==> outport !in sc2scMaps[k].ports
      {
        LookupAt(sc2scMaps, outport, i);
        if outport in sc2scMaps[i].ports {
          return Some(sc2scMaps[i].table);
        }
        i := i + 1;
      }
      LookupAt(sc2scMaps, outport, i);
      return None;
    }

    /** Whether a mask shows no port up to a number, by counting those it shows. */
    method NumPortsSet(ports: set<nat>, totalPorts: nat) returns (n: nat)
      ensures n == 0 <==> ShowsNone(ports, totalPorts)
    {
      n := 0;
      for i := 0 to totalPorts + 1
        invariant n == 0 <==> forall p :: p in ports ==> p >= i
      {
        if i in ports {
          n := n + 1;
        }
      }
    }

    /** Give a port a table: join the entry that has it, or reuse a vacated entry, or make one. */
    method QOSDataAddSCSCMap(outport: nat, table: Table)
      modifies this
      ensures sc2scMaps == Added(old(sc2scMaps), LastCounted(numPorts), outport, table)
    {
      var found, empty := Sweep(outport, table);
      if found {
        if empty.Some? {
          sc2scMaps := sc2scMaps[..empty.value] + sc2scMaps[empty.value + 1..];
        }
        return;
      }
      if empty.None? {
        sc2scMaps := sc2scMaps + [Entry({outport}, table)];
      } else {
        sc2scMaps := sc2scMaps[empty.value := Entry(sc2scMaps[empty.value].ports + {outport}, table)];
      }
    }

    /** Give the port to the entries with the table and take it from the others; note the last one
        that takes the port's leaving to be empty. */
    method Sweep(outport: nat, table: Table) returns (found: bool, empty: Option<nat>)
      modifies this
      ensures sc2scMaps == Pass(old(sc2scMaps), outport, table) && found == Holds(old(sc2scMaps), table)
      ensures empty == LastVacated(old(sc2scMaps), |old(sc2scMaps)|, LastCounted(numPorts), outport, table)
    {
      hide ShowsNone;
      ghost var es := sc2scMaps;
      empty, found := None, false;
      var i := 0;
      while i < |sc2scMaps|
        invariant 0 <= i <= |es| && |sc2scMaps| == |es|
        invariant forall k :: 0 <= k < |es| ==> sc2scMaps[k] == if k < i then Passed(es[k], outport, table) else es[k]
        invariant found <==> exists k :: 0 <= k < i && es[k].table == table
        invariant empty == LastVacated(es, i, LastCounted(numPorts), outport, table)
      {
        var vacated;
        found, vacated := SweepOne(i, outport, table, found);
        empty := if vacated then Some(i) else empty;
        i := i + 1;
      }
      assert sc2scMaps == Pass(es, outport, table);
    }

    method SweepOne(i: nat, outport: nat, table: Table, was: bool) returns (found: bool, vacated: bool)
      requires i < |sc2scMaps|
      modifies this
      ensures sc2scMaps == old(sc2scMaps)[i := Passed(old(sc2scMaps)[i], outport, table)]
      ensures found == (was || old(sc2scMaps)[i].table == table)
      ensures vacated == Vacated(old(sc2scMaps)[i], LastCounted(numPorts), outport, table)
    {
      found, vacated := was, false;
      var e := sc2scMaps[i];
      if e.table == table {
        sc2scMaps := sc2scMaps[i := e.(ports := e.ports + {outport})];
        found := true;
      } else if outport in e.ports {
        sc2scMaps := sc2scMaps[i := e.(ports := e.ports - {outport})];
        var left := NumPortsSet(e.ports - {outport}, numPorts % UINT8);
        vacated := left == 0;
      } else {
        assert e.ports - {outport} == e.ports;
      }
    }
  }
}
