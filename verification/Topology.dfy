/** How the CLI's topology view distributes cells over the hosts it prints. */
module Topology {
  import opened JsText

  datatype Cell = Cell(id: string, primaryHostId: Option<string>)

  /** The cells printed under each host, in host order, and the ones printed as unplaced. */
  datatype View = View(byHost: seq<seq<Cell>>, unplaced: seq<Cell>)

  predicate Placed(hosts: seq<string>, c: Cell) {
    c.primaryHostId.Some? && c.primaryHostId.value != "" && c.primaryHostId.value in hosts
  }

  predicate On(c: Cell, host: string) {
    c.primaryHostId == Some(host) && host != ""
  }

  function CellsOn(cells: seq<Cell>, host: string): seq<Cell> {
    if cells == [] then []
    else
      var c := cells[|cells| - 1];
      CellsOn(cells[..|cells| - 1], host) + if On(c, host) then [c] else []
  }

  function Unplaced(hosts: seq<string>, cells: seq<Cell>): seq<Cell> {
    if cells == [] then []
    else
      var c := cells[|cells| - 1];
      Unplaced(hosts, cells[..|cells| - 1]) + if Placed(hosts, c) then [] else [c]
  }

  lemma Snoc(hosts: seq<string>, cells: seq<Cell>, i: nat)
    requires i < |cells|
    ensures forall h ::
      CellsOn(cells[..i + 1], h) == CellsOn(cells[..i], h) + if On(cells[i], h) then [cells[i]] else []
    ensures Unplaced(hosts, cells[..i + 1])
         == Unplaced(hosts, cells[..i]) + if Placed(hosts, cells[i]) then [] else [cells[i]]
  {
    assert cells[..i + 1][..i] == cells[..i];
  }

  lemma NothingYet(hosts: seq<string>, cells: seq<Cell>)
    ensures forall h :: CellsOn(cells[..0], h) == []
    ensures Unplaced(hosts, cells[..0]) == []
  {
  }

  /** The grouping of `renderTopology`; `hosts` are the host ids. */
  method Group(hosts: seq<string>, cells: seq<Cell>) returns (view: View)
    ensures |view.byHost| == |hosts|
    ensures forall k :: 0 <= k < |hosts| ==> view.byHost[k] == CellsOn(cells, hosts[k])
    ensures view.unplaced == Unplaced(hosts, cells)
  {
    hide CellsOn, Unplaced;
    NothingYet(hosts, cells);
    var cellsByHost: map<string, seq<Cell>> := map[];
    var unplaced: seq<Cell> := [];
    for i := 0 to |cells|
      invariant forall h :: h in cellsByHost ==> h in hosts && cellsByHost[h] == CellsOn(cells[..i], h)
      invariant forall h :: h in hosts && h !in cellsByHost ==> CellsOn(cells[..i], h) == []
      invariant unplaced == Unplaced(hosts, cells[..i])
    {
      var c := cells[i];
      Snoc(hosts, cells, i);
      if c.primaryHostId.Some? && c.primaryHostId.value != "" && c.primaryHostId.value in hosts {
        var h := c.primaryHostId.value;
        var arr := if h in cellsByHost then cellsByHost[h] else [];
        cellsByHost := cellsByHost[h := arr + [c]];
      } else {
        unplaced := unplaced + [c];
      }
    }
    assert cells[..|cells|] == cells;
    var byHost: seq<seq<Cell>> := [];
    for i := 0 to |hosts|
      invariant |byHost| == i && forall k :: 0 <= k < i ==> byHost[k] == CellsOn(cells, hosts[k])
    {
      byHost := byHost + [if hosts[i] in cellsByHost then cellsByHost[hosts[i]] else []];
    }
    view := View(byHost, unplaced);
  }

  // ---- what is printed --------------------------------------------------------------------

  /** Every cell line, in the order printed. */
  function Printed(hosts: seq<string>, cells: seq<Cell>): seq<Cell> {
    UnderHosts(hosts, cells) + Unplaced(hosts, cells)
  }

  function UnderHosts(hosts: seq<string>, cells: seq<Cell>): seq<Cell> {
    if hosts == [] then [] else CellsOn(cells, hosts[0]) + UnderHosts(hosts[1..], cells)
  }

  function Occurrences(hosts: seq<string>, host: string): nat {
    multiset(hosts)[host]
  }

  lemma {:induction false} CellsOnCount(cells: seq<Cell>, host: string, c: Cell)
    ensures multiset(CellsOn(cells, host))[c] == if On(c, host) then multiset(cells)[c] else 0
  {
    if cells != [] {
      CellsOnCount(cells[..|cells| - 1], host, c);
      assert cells == cells[..|cells| - 1] + [cells[|cells| - 1]];
    }
  }

  lemma {:induction false} UnplacedCount(hosts: seq<string>, cells: seq<Cell>, c: Cell)
    ensures multiset(Unplaced(hosts, cells))[c] == if Placed(hosts, c) then 0 else multiset(cells)[c]
  {
    if cells != [] {
      UnplacedCount(hosts, cells[..|cells| - 1], c);
      assert cells == cells[..|cells| - 1] + [cells[|cells| - 1]];
    }
  }

  /** A cell is printed under the host it names, and as unplaced when it names none that is listed. */
  lemma PrintedWhere(hosts: seq<string>, cells: seq<Cell>, id: string, host: string)
    ensures host != "" ==> (Cell(id, Some(host)) in CellsOn(cells, host) <==> Cell(id, Some(host)) in cells)
    ensures forall c :: c in CellsOn(cells, host) ==> c.primaryHostId == Some(host) && host != ""
    ensures forall c :: c in Unplaced(hosts, cells) <==>
      c in cells && (c.primaryHostId == None || c.primaryHostId == Some("") || c.primaryHostId.value !in hosts)
  {
    hide CellsOn, Unplaced;
    forall c ensures c in CellsOn(cells, host) <==> c in cells && On(c, host) {
      CellsOnCount(cells, host, c);
    }
    forall c ensures c in Unplaced(hosts, cells) <==> c in cells && !Placed(hosts, c) {
      UnplacedCount(hosts, cells, c);
    }
  }

  lemma OccurrencesCons(hosts: seq<string>, host: string, m: nat)
    requires hosts != []
    ensures Occurrences(hosts, host) * m == (if hosts[0] == host then m else 0) + Occurrences(hosts[1..], host) * m
  {
    assert hosts == [hosts[0]] + hosts[1..];
    assert Occurrences(hosts, host) == (if hosts[0] == host then 1 else 0) + Occurrences(hosts[1..], host);
  }

  lemma {:induction false} UnderHostsCount(hosts: seq<string>, cells: seq<Cell>, c: Cell)
    ensures multiset(UnderHosts(hosts, cells))[c] ==
      if c.primaryHostId.Some? && c.primaryHostId.value != "" then
        Occurrences(hosts, c.primaryHostId.value) * multiset(cells)[c]
      else 0
  {
    hide CellsOn;
    if hosts != [] {
      UnderHostsCount(hosts[1..], cells, c);
      CellsOnCount(cells, hosts[0], c);
      if c.primaryHostId.Some? { OccurrencesCons(hosts, c.primaryHostId.value, multiset(cells)[c]); }
      hide Occurrences;
    }
  }

  /** Each cell is printed as often as it is listed, times the occurrences of its host when it has a listed one. */
  lemma PrintedCount(hosts: seq<string>, cells: seq<Cell>, c: Cell)
    ensures multiset(Printed(hosts, cells))[c] ==
      (if Placed(hosts, c) then Occurrences(hosts, c.primaryHostId.value) else 1) * multiset(cells)[c]
  {
    hide CellsOn, Unplaced, UnderHosts;
    UnderHostsCount(hosts, cells, c);
    UnplacedCount(hosts, cells, c);
  }

  /** The cells printed are a permutation of the cells listed exactly when no host holding a cell is listed twice. */
  lemma PrintsEveryCellOnceExactly(hosts: seq<string>, cells: seq<Cell>)
    ensures multiset(Printed(hosts, cells)) == multiset(cells) <==>
      forall c :: c in cells && Placed(hosts, c) ==> Occurrences(hosts, c.primaryHostId.value) == 1
  {
    hide Printed;
    forall c ensures multiset(Printed(hosts, cells))[c] ==
      (if Placed(hosts, c) then Occurrences(hosts, c.primaryHostId.value) else 1) * multiset(cells)[c]
    {
      PrintedCount(hosts, cells, c);
    }
    if multiset(Printed(hosts, cells)) == multiset(cells) {
      forall c | c in cells && Placed(hosts, c) ensures Occurrences(hosts, c.primaryHostId.value) == 1 {
        TimesOne(Occurrences(hosts, c.primaryHostId.value), multiset(cells)[c]);
      }
    }
    if forall c :: c in cells && Placed(hosts, c) ==> Occurrences(hosts, c.primaryHostId.value) == 1 {
      assert forall c :: multiset(Printed(hosts, cells))[c] == multiset(cells)[c];
    }
  }

  lemma TimesOne(n: nat, m: nat)
    requires m > 0 && n * m == m
    ensures n == 1
  {
    assert (n - 1) * m == 0;
  }

  /** The positions, in order, of the cells that `pick` takes. */
  function Positions(cells: seq<Cell>, pick: Cell -> bool): (at: seq<nat>)
    ensures forall k :: 0 <= k < |at| ==> at[k] < |cells| && pick(cells[at[k]])
    ensures forall j, k :: 0 <= j < k < |at| ==> at[j] < at[k]
    ensures forall i :: 0 <= i < |cells| && pick(cells[i]) ==> i in at
  {
    if cells == [] then []
    else
      var n := |cells| - 1;
      Positions(cells[..n], pick) + if pick(cells[n]) then [n] else []
  }

  function CellsAt(cells: seq<Cell>, at: seq<nat>): seq<Cell>
    requires forall k :: 0 <= k < |at| ==> at[k] < |cells|
  {
    seq(|at|, k requires 0 <= k < |at| => cells[at[k]])
  }

  /** Under a host stand exactly the cells placed on it, in listing order. */
  lemma {:induction false} HostGroupInOrder(cells: seq<Cell>, host: string)
    ensures CellsOn(cells, host) == CellsAt(cells, Positions(cells, c => On(c, host)))
  {
    if cells != [] {
      var n := |cells| - 1;
      HostGroupInOrder(cells[..n], host);
      AtSnoc(cells, Positions(cells[..n], c => On(c, host)));
    }
  }

  lemma {:induction false} UnplacedInOrder(hosts: seq<string>, cells: seq<Cell>)
    ensures Unplaced(hosts, cells) == CellsAt(cells, Positions(cells, c => !Placed(hosts, c)))
  {
    if cells != [] {
      var n := |cells| - 1;
      UnplacedInOrder(hosts, cells[..n]);
      AtSnoc(cells, Positions(cells[..n], c => !Placed(hosts, c)));
    }
  }

  lemma AtSnoc(cells: seq<Cell>, at: seq<nat>)
    requires cells != [] && forall k :: 0 <= k < |at| ==> at[k] < |cells| - 1
    ensures CellsAt(cells, at) == CellsAt(cells[..|cells| - 1], at)
    ensures CellsAt(cells, at + [|cells| - 1]) == CellsAt(cells, at) + [cells[|cells| - 1]]
  {
  }

  /** A host listed twice: its one cell is printed twice. */
  lemma RepeatedHostRepeatsItsCell()
    ensures var c := Cell("c", Some("h")); multiset(Printed(["h", "h"], [c]))[c] == 2
  {
    var c := Cell("c", Some("h"));
    assert "h" in ["h", "h"] && multiset(["h", "h"])["h"] == 2 && multiset([c])[c] == 1;
    PrintedCount(["h", "h"], [c], c);
  }
}
