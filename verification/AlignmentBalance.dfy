/** The result of an alignment, and its `balance` check. */
module AlignmentBalance {
  import opened Common
  import opened Sequences
  import opened ForestModel
  import opened AlignmentSpec

  datatype Side = RecordSide | ReplaySide

  datatype BalanceError =
    | EmptySubtree(row: nat)
    | WrongSides(row: nat)
    | OwnedTwice(side: Side, id: Id)
    | WrongCount(side: Side, represented: nat, provided: nat)

  function IdOn(side: Side, row: AlignedNode): Option<Id> {
    if side == RecordSide then row.recordNode else row.replayNode
  }

  /** The row stands for a whole subtree of this side. */
  predicate Collapsed(side: Side, row: AlignedNode) {
    if side == RecordSide then row.outcome.PrunedSubtree? else row.outcome.NovelSubtree?
  }

  /** The ids one side contributes, row by row. */
  function IdsOn(side: Side, rows: seq<AlignedNode>): seq<Id> {
    if rows == [] then []
    else
      var last := IdOn(side, rows[|rows| - 1]);
      IdsOn(side, rows[..|rows| - 1]) + if last.Some? then [last.value] else []
  }

  predicate NothingCollapsed(row: AlignedNode) {
    (row.outcome.PrunedSubtree? || row.outcome.NovelSubtree?) && row.outcome.eventsBelow == 0
  }

  /** A matched outcome names both sides, a collapsed one only its own. */
  predicate SidesFit(row: AlignedNode) {
    && (row.recordNode.Some? <==> !row.outcome.NovelSubtree?)
    && (row.replayNode.Some? <==> !row.outcome.PrunedSubtree?)
  }

  predicate SoundRow(row: AlignedNode) {
    !NothingCollapsed(row) && SidesFit(row)
  }

  ghost predicate CountFits(side: Side, rows: seq<AlignedNode>, provided: nat) {
    if exists row :: row in rows && Collapsed(side, row) then |IdsOn(side, rows)| <= provided else |IdsOn(side, rows)| == provided
  }

  /** What a balanced alignment promises about the two node counts. */
  ghost predicate BalancedRows(rows: seq<AlignedNode>, recordNodes: nat, replayNodes: nat) {
    && (forall row :: row in rows ==> SoundRow(row))
    && NoDup(IdsOn(RecordSide, rows)) && NoDup(IdsOn(ReplaySide, rows))
    && CountFits(RecordSide, rows, recordNodes) && CountFits(ReplaySide, rows, replayNodes)
  }

  /** What the loop knows of one side. */
  ghost predicate Tallied(side: Side, rows: seq<AlignedNode>, seen: set<Id>, collapsed: bool) {
    && NoDup(IdsOn(side, rows)) && seen == ToSet(IdsOn(side, rows)) && |seen| == |IdsOn(side, rows)|
    && (collapsed <==> exists row :: row in rows && Collapsed(side, row))
  }

  lemma NextRow(rows: seq<AlignedNode>, i: nat)
    requires i < |rows|
    ensures rows[..i + 1] == rows[..i] + [rows[i]]
    ensures forall side :: IdsOn(side, rows[..i + 1]) == IdsOn(side, rows[..i]) + if IdOn(side, rows[i]).Some? then [IdOn(side, rows[i]).value] else []
  {
    assert rows[..i + 1][..i] == rows[..i];
  }

  lemma {:induction false} IdsGrow(side: Side, rows: seq<AlignedNode>, i: nat)
    requires i <= |rows|
    ensures |IdsOn(side, rows[..i])| <= |IdsOn(side, rows)| && IdsOn(side, rows)[..|IdsOn(side, rows[..i])|] == IdsOn(side, rows[..i])
    decreases |rows| - i
  {
    if i == |rows| {
      assert rows[..i] == rows;
    } else {
      IdsGrow(side, rows, i + 1);
      NextRow(rows, i);
    }
  }

  /** A prefix that already repeats an id condemns the whole list. */
  lemma RepeatsStay(side: Side, rows: seq<AlignedNode>, i: nat)
    requires i <= |rows| && !NoDup(IdsOn(side, rows[..i]))
    ensures !NoDup(IdsOn(side, rows))
  {
    IdsGrow(side, rows, i);
    var here, all := IdsOn(side, rows[..i]), IdsOn(side, rows);
    var a, b :| 0 <= a < b < |here| && here[a] == here[b];
    assert all[a] == all[..|here|][a] && all[b] == all[..|here|][b];
  }

  lemma MetTwice(side: Side, rows: seq<AlignedNode>, i: nat)
    requires i < |rows| && IdOn(side, rows[i]).Some? && IdOn(side, rows[i]).value in IdsOn(side, rows[..i])
    ensures !NoDup(IdsOn(side, rows))
  {
    NextRow(rows, i);
    var before, now := IdsOn(side, rows[..i]), IdsOn(side, rows[..i + 1]);
    var j :| 0 <= j < |before| && before[j] == IdOn(side, rows[i]).value;
    assert now == before + [before[j]];
    assert now[j] == now[|before|];
    RepeatsStay(side, rows, i + 1);
  }

  lemma MetFirst(side: Side, rows: seq<AlignedNode>, i: nat, seen: set<Id>, collapsed: bool)
    requires i < |rows| && Tallied(side, rows[..i], seen, collapsed)
    requires IdOn(side, rows[i]).Some? ==> IdOn(side, rows[i]).value !in seen
    ensures
      var id := IdOn(side, rows[i]);
      Tallied(side, rows[..i + 1], if id.Some? then seen + {id.value} else seen, collapsed || Collapsed(side, rows[i]))
  {
    NextRow(rows, i);
    var before, id := IdsOn(side, rows[..i]), IdOn(side, rows[i]);
    if id.Some? {
      NoDupJoin(before, [id.value]);
      assert ToSet(before + [id.value]) == ToSet(before) + {id.value};
    }
    assert rows[i] in rows[..i + 1];
    forall row ensures row in rows[..i + 1] <==> row in rows[..i] || row == rows[i] {}
  }

  /** One side of one row joins its tally, unless its id is already owned. */
  method Own(side: Side, rows: seq<AlignedNode>, i: nat, seen: set<Id>, ghost collapsed: bool) returns (twice: Option<Id>, seen': set<Id>)
    requires i < |rows| && Tallied(side, rows[..i], seen, collapsed)
    ensures twice.None? ==> Tallied(side, rows[..i + 1], seen', collapsed || Collapsed(side, rows[i]))
    ensures twice.Some? ==> !NoDup(IdsOn(side, rows)) && twice == IdOn(side, rows[i])
  {
    twice, seen' := None, seen;
    var id := IdOn(side, rows[i]);
    if id.Some? && id.value in seen {
      MetTwice(side, rows, i);
      return id, seen;
    }
    MetFirst(side, rows, i, seen, collapsed);
    if id.Some? {
      seen' := seen + {id.value};
    }
  }

  method CheckRow(rows: seq<AlignedNode>, i: nat) returns (r: Result<(), BalanceError>)
    requires i < |rows|
    ensures r.Ok? <==> SoundRow(rows[i])
    ensures r.Err? ==> r.error == if NothingCollapsed(rows[i]) then EmptySubtree(i) else WrongSides(i)
  {
    var row := rows[i];
    var sides;
    match row.outcome {
      case PrunedSubtree(below) =>
        if below == 0 {
          return Err(EmptySubtree(i));
        }
        sides := (true, false);
      case NovelSubtree(below) =>
        if below == 0 {
          return Err(EmptySubtree(i));
        }
        sides := (false, true);
      case _ =>
        sides := (true, true);
    }
    r := if row.recordNode.Some? != sides.0 || row.replayNode.Some? != sides.1 then Err(WrongSides(i)) else Ok(());
  }

  method CheckCount(side: Side, represented: nat, provided: nat, collapsed: bool) returns (r: Result<(), BalanceError>)
    ensures r == if (if collapsed then represented <= provided else represented == provided) then Ok(()) else Err(WrongCount(side, represented, provided))
  {
    var valid := if collapsed then represented <= provided else represented == provided;
    r := if valid then Ok(()) else Err(WrongCount(side, represented, provided));
  }

  // ----- reconciling with what was actually served -----

  /** The one event the record node carries, when it carries one. */
  function LoneEvent(events: seq<nat>): Option<nat> {
    if |events| == 1 then Some(events[0]) else None
  }

  function RecordEvents(record: Forest, row: AlignedNode): seq<nat> {
    if row.recordNode.Some? && row.recordNode.value in record.nodes then record.nodes[row.recordNode.value].events else []
  }

  /** The row pairs both sides, and its replay node was served an event its record node does not carry. */
  predicate ServedCrosswise(row: AlignedNode, served: map<Id, nat>, record: Forest) {
    && row.recordNode.Some? && row.replayNode.Some? && row.replayNode.value in served
    && served[row.replayNode.value] !in RecordEvents(record, row)
  }

  /** A crosswise row becomes a skew naming both bindings; every other row stands. */
  function AfterServing(row: AlignedNode, served: map<Id, nat>, record: Forest): AlignedNode {
    if ServedCrosswise(row, served, record)
    then row.(outcome := IdentitySkew(LoneEvent(RecordEvents(record, row)), Some(served[row.replayNode.value])))
    else row
  }

  function RowsAfterServing(rows: seq<AlignedNode>, served: map<Id, nat>, record: Forest): seq<AlignedNode> {
    seq(|rows|, i requires 0 <= i < |rows| => AfterServing(rows[i], served, record))
  }

  lemma {:induction false} ServingKeepsIds(side: Side, rows: seq<AlignedNode>, served: map<Id, nat>, record: Forest)
    ensures IdsOn(side, RowsAfterServing(rows, served, record)) == IdsOn(side, rows)
  {
    if rows != [] {
      var after := RowsAfterServing(rows, served, record);
      assert after[..|rows| - 1] == RowsAfterServing(rows[..|rows| - 1], served, record);
      ServingKeepsIds(side, rows[..|rows| - 1], served, record);
    }
  }

  lemma ServingKeepsRow(row: AlignedNode, served: map<Id, nat>, record: Forest, side: Side)
    requires SoundRow(row)
    ensures SoundRow(AfterServing(row, served, record)) && (Collapsed(side, AfterServing(row, served, record)) <==> Collapsed(side, row))
  {
  }

  lemma ServingKeepsCount(side: Side, rows: seq<AlignedNode>, served: map<Id, nat>, record: Forest, provided: nat)
    requires (forall row :: row in rows ==> SoundRow(row)) && CountFits(side, rows, provided)
    ensures CountFits(side, RowsAfterServing(rows, served, record), provided)
    ensures forall row :: row in RowsAfterServing(rows, served, record) ==> SoundRow(row)
  {
    var after := RowsAfterServing(rows, served, record);
    ServingKeepsIds(side, rows, served, record);
    forall i | 0 <= i < |rows| ensures SoundRow(after[i]) && (Collapsed(side, after[i]) <==> Collapsed(side, rows[i])) {
      assert rows[i] in rows;
      ServingKeepsRow(rows[i], served, record, side);
    }
    if row :| row in rows && Collapsed(side, row) {
      var i :| 0 <= i < |rows| && rows[i] == row;
      assert after[i] in after && Collapsed(side, after[i]);
    }
  }

  /** Collapsed rows name one side only, so serving leaves them alone and the balance stands. */
  lemma ServingKeepsBalance(rows: seq<AlignedNode>, served: map<Id, nat>, record: Forest, recordNodes: nat, replayNodes: nat)
    requires BalancedRows(rows, recordNodes, replayNodes)
    ensures BalancedRows(RowsAfterServing(rows, served, record), recordNodes, replayNodes)
  {
    ServingKeepsIds(RecordSide, rows, served, record);
    ServingKeepsIds(ReplaySide, rows, served, record);
    ServingKeepsCount(RecordSide, rows, served, record, recordNodes);
    ServingKeepsCount(ReplaySide, rows, served, record, replayNodes);
  }

  /** No two-sided row whose replay node was served an event carried by its own record node. */
  ghost predicate ServedInPlace(rows: seq<AlignedNode>, served: map<Id, nat>, record: Forest) {
    forall row :: row in rows && row.recordNode.Some? && row.replayNode.Some? && row.replayNode.value in served ==>
      row.recordNode.value in record.nodes && served[row.replayNode.value] in record.nodes[row.recordNode.value].events
  }

  /** Serving changes nothing in rows not yet skewed exactly when every event was served where its record node stands. */
  lemma UnchangedIffServedInPlace(rows: seq<AlignedNode>, served: map<Id, nat>, record: Forest)
    requires forall row :: row in rows ==> !row.outcome.IdentitySkew?
    ensures RowsAfterServing(rows, served, record) == rows <==> ServedInPlace(rows, served, record)
  {
    var after := RowsAfterServing(rows, served, record);
    if ServedInPlace(rows, served, record) {
      forall i | 0 <= i < |rows| ensures after[i] == rows[i] {
        assert rows[i] in rows;
      }
    }
    if after == rows {
      forall row | row in rows && row.recordNode.Some? && row.replayNode.Some? && row.replayNode.value in served
        ensures row.recordNode.value in record.nodes && served[row.replayNode.value] in record.nodes[row.recordNode.value].events
      {
        var i :| 0 <= i < |rows| && rows[i] == row;
        assert after[i] == AfterServing(row, served, record) == row;
      }
    }
  }

  /** A row that serving skewed names the event served, which its record node does not carry, and the one event the
      record node does carry, when there is just one. */
  lemma SkewNamesBothBindings(rows: seq<AlignedNode>, served: map<Id, nat>, record: Forest, i: nat)
    requires i < |rows| && RowsAfterServing(rows, served, record)[i] != rows[i]
    ensures
      var was, now := rows[i], RowsAfterServing(rows, served, record)[i];
      && was.recordNode.Some? && was.replayNode.Some? && was.replayNode.value in served
      && now == was.(outcome := now.outcome) && now.outcome.IdentitySkew? && now.outcome.servedEvent == Some(served[was.replayNode.value])
      && (was.recordNode.value in record.nodes ==> served[was.replayNode.value] !in record.nodes[was.recordNode.value].events)
      && forall x :: now.outcome.alignedEvent == Some(x) <==>
                       was.recordNode.value in record.nodes && record.nodes[was.recordNode.value].events == [x]
  {
    var events := RecordEvents(record, rows[i]);
    forall x ensures LoneEvent(events) == Some(x) <==> events == [x] {
      assert |events| == 1 ==> events == [events[0]];
    }
  }

  // ----- the balance, told in the fields of the rows -----

  /** A collapsed row stands for some event and names its own side only; any other row names both. */
  ghost predicate RowIsSound(row: AlignedNode) {
    match row.outcome
    case PrunedSubtree(n) => n > 0 && row.recordNode.Some? && row.replayNode.None?
    case NovelSubtree(n) => n > 0 && row.recordNode.None? && row.replayNode.Some?
    case _ => row.recordNode.Some? && row.replayNode.Some?
  }

  /** Rows are sound, no id is named twice on a side, and each side names as many nodes as were given: or at most
      that many, when a collapsed row stands for more than the one it names. */
  ghost predicate RowsBalance(rows: seq<AlignedNode>, recordNodes: nat, replayNodes: nat) {
    var recorded, replayed := HowMany(rows, (row: AlignedNode) => row.recordNode.Some?), HowMany(rows, (row: AlignedNode) => row.replayNode.Some?);
    && (forall row :: row in rows ==> RowIsSound(row))
    && (forall i, j :: 0 <= i < j < |rows| && rows[i].recordNode.Some? ==> rows[i].recordNode != rows[j].recordNode)
    && (forall i, j :: 0 <= i < j < |rows| && rows[i].replayNode.Some? ==> rows[i].replayNode != rows[j].replayNode)
    && (recorded == recordNodes || (recorded < recordNodes && exists row :: row in rows && row.outcome.PrunedSubtree?))
    && (replayed == replayNodes || (replayed < replayNodes && exists row :: row in rows && row.outcome.NovelSubtree?))
  }

  lemma {:induction false} IdsCounted(side: Side, rows: seq<AlignedNode>)
    ensures |IdsOn(side, rows)| == HowMany(rows, (row: AlignedNode) => IdOn(side, row).Some?)
    ensures forall id :: id in IdsOn(side, rows) <==> exists i :: 0 <= i < |rows| && IdOn(side, rows[i]) == Some(id)
  {
    if rows != [] {
      var init, last := rows[..|rows| - 1], rows[|rows| - 1];
      assert rows == init + [last];
      IdsCounted(side, init);
      HowManyNext(init, last, (row: AlignedNode) => IdOn(side, row).Some?);
      forall id ensures id in IdsOn(side, rows) <==> exists i :: 0 <= i < |rows| && IdOn(side, rows[i]) == Some(id) {
        if i :| 0 <= i < |init| && IdOn(side, init[i]) == Some(id) {
          assert rows[i] == init[i];
        }
        if i :| 0 <= i < |rows| && IdOn(side, rows[i]) == Some(id) {
          assert i < |init| ==> rows[i] == init[i];
        }
        if IdOn(side, last) == Some(id) {
          assert rows[|init|] == last;
        }
      }
    }
  }

  lemma {:induction false} IdsOnce(side: Side, rows: seq<AlignedNode>)
    ensures NoDup(IdsOn(side, rows)) <==> EachIdOnce(side, rows)
  {
    if rows != [] {
      var init, last := rows[..|rows| - 1], rows[|rows| - 1];
      assert rows == init + [last];
      IdsOnce(side, init);
      IdsCounted(side, init);
      IdsOnceNext(side, init, last);
      if IdOn(side, last).Some? {
        var id := IdOn(side, last).value;
        NoDupSnoc(IdsOn(side, init), id);
        assert IdsOn(side, rows) == IdsOn(side, init) + [id];
        assert id !in IdsOn(side, init) <==> forall i :: 0 <= i < |init| ==> IdOn(side, init[i]) != Some(id);
      } else {
        assert IdsOn(side, rows) == IdsOn(side, init);
      }
    }
  }

  ghost predicate EachIdOnce(side: Side, rows: seq<AlignedNode>) {
    forall i, j :: 0 <= i < j < |rows| && IdOn(side, rows[i]).Some? ==> IdOn(side, rows[i]) != IdOn(side, rows[j])
  }

  lemma IdsOnceNext(side: Side, rows: seq<AlignedNode>, row: AlignedNode)
    ensures EachIdOnce(side, rows + [row]) <==>
              EachIdOnce(side, rows) && (IdOn(side, row).Some? ==> forall i :: 0 <= i < |rows| ==> IdOn(side, rows[i]) != IdOn(side, row))
  {
    var more := rows + [row];
    assert more[|rows|] == row && forall i :: 0 <= i < |rows| ==> more[i] == rows[i];
    if EachIdOnce(side, more) {
      forall i, j | 0 <= i < j < |rows| && IdOn(side, rows[i]).Some? ensures IdOn(side, rows[i]) != IdOn(side, rows[j]) {
        assert IdOn(side, more[i]) != IdOn(side, more[j]);
      }
      forall i | 0 <= i < |rows| && IdOn(side, row).Some? ensures IdOn(side, rows[i]) != IdOn(side, row) {
        assert IdOn(side, rows[i]).Some? ==> IdOn(side, more[i]) != IdOn(side, more[|rows|]);
      }
    }
  }

  lemma NoDupSnoc(ids: seq<Id>, id: Id)
    ensures NoDup(ids + [id]) <==> NoDup(ids) && id !in ids
  {
    if NoDup(ids + [id]) {
      NoDupParts(ids, [id]);
      forall i | 0 <= i < |ids| ensures ids[i] != id {
        assert (ids + [id])[i] != (ids + [id])[|ids|];
      }
    }
    if NoDup(ids) && id !in ids {
      NoDupJoin(ids, [id]);
    }
  }

  lemma BalancedRowsAre(rows: seq<AlignedNode>, recordNodes: nat, replayNodes: nat)
    ensures BalancedRows(rows, recordNodes, replayNodes) <==> RowsBalance(rows, recordNodes, replayNodes)
  {
    assert forall row :: SoundRow(row) <==> RowIsSound(row);
    RecordSideIs(rows, recordNodes);
    ReplaySideIs(rows, replayNodes);
  }

  lemma RecordSideIs(rows: seq<AlignedNode>, provided: nat)
    ensures NoDup(IdsOn(RecordSide, rows)) <==>
              forall i, j :: 0 <= i < j < |rows| && rows[i].recordNode.Some? ==> rows[i].recordNode != rows[j].recordNode
    ensures var count := HowMany(rows, (row: AlignedNode) => row.recordNode.Some?);
            CountFits(RecordSide, rows, provided) <==>
              count == provided || (count < provided && exists row :: row in rows && row.outcome.PrunedSubtree?)
  {
    IdsOnce(RecordSide, rows);
    IdsCounted(RecordSide, rows);
    HowManySame(rows, (row: AlignedNode) => IdOn(RecordSide, row).Some?, (row: AlignedNode) => row.recordNode.Some?);
  }

  lemma ReplaySideIs(rows: seq<AlignedNode>, provided: nat)
    ensures NoDup(IdsOn(ReplaySide, rows)) <==>
              forall i, j :: 0 <= i < j < |rows| && rows[i].replayNode.Some? ==> rows[i].replayNode != rows[j].replayNode
    ensures var count := HowMany(rows, (row: AlignedNode) => row.replayNode.Some?);
            CountFits(ReplaySide, rows, provided) <==>
              count == provided || (count < provided && exists row :: row in rows && row.outcome.NovelSubtree?)
  {
    IdsOnce(ReplaySide, rows);
    IdsCounted(ReplaySide, rows);
    HowManySame(rows, (row: AlignedNode) => IdOn(ReplaySide, row).Some?, (row: AlignedNode) => row.replayNode.Some?);
  }

  class Alignment {
    var nodes: seq<AlignedNode>
    var suspectedRenames: seq<(Id, Id)>
    var flatTierEvents: seq<nat>

    constructor ()
      ensures nodes == [] && suspectedRenames == [] && flatTierEvents == []
    {
      nodes, suspectedRenames, flatTierEvents := [], [], [];
    }

    /** Ok exactly when the rows are sound, no id is owned twice, and the counts agree. */
    method Balance(recordNodes: nat, replayNodes: nat) returns (r: Result<(), BalanceError>)
      ensures r.Ok? <==> BalancedRows(nodes, recordNodes, replayNodes)
      ensures r.Ok? <==> RowsBalance(nodes, recordNodes, replayNodes)
      ensures r.Err? ==>
                match r.error
                case EmptySubtree(i) => i < |nodes| && NothingCollapsed(nodes[i])
                case WrongSides(i) => i < |nodes| && !SidesFit(nodes[i])
                case OwnedTwice(side, id) => !NoDup(IdsOn(side, nodes)) && id in IdsOn(side, nodes)
                case WrongCount(side, represented, provided) =>
                  && represented == |IdsOn(side, nodes)|
                  && provided == (if side == RecordSide then recordNodes else replayNodes)
                  && !CountFits(side, nodes, provided)
    {
      BalancedRowsAre(nodes, recordNodes, replayNodes);
      var seenRecord: set<Id>, seenReplay: set<Id> := {}, {};
      var recordCollapsed, replayCollapsed := false, false;
      for i := 0 to |nodes|
        invariant forall j :: 0 <= j < i ==> SoundRow(nodes[j])
        invariant Tallied(RecordSide, nodes[..i], seenRecord, recordCollapsed)
        invariant Tallied(ReplaySide, nodes[..i], seenReplay, replayCollapsed)
      {
        var checked := CheckRow(nodes, i);
        if checked.Err? {
          assert nodes[i] in nodes;
          return checked;
        }
        var twice;
        twice, seenRecord := Own(RecordSide, nodes, i, seenRecord, recordCollapsed);
        if twice.Some? {
          IdListed(RecordSide, nodes, i);
          return Err(OwnedTwice(RecordSide, twice.value));
        }
        twice, seenReplay := Own(ReplaySide, nodes, i, seenReplay, replayCollapsed);
        if twice.Some? {
          IdListed(ReplaySide, nodes, i);
          return Err(OwnedTwice(ReplaySide, twice.value));
        }
        recordCollapsed := recordCollapsed || nodes[i].outcome.PrunedSubtree?;
        replayCollapsed := replayCollapsed || nodes[i].outcome.NovelSubtree?;
      }
      assert nodes[..|nodes|] == nodes;
      r := CheckCount(RecordSide, |seenRecord|, recordNodes, recordCollapsed);
      if r.Ok? {
        r := CheckCount(ReplaySide, |seenReplay|, replayNodes, replayCollapsed);
      }
    }

    method ReconcileServing(served: map<Id, nat>, record: Forest)
      modifies this`nodes
      ensures nodes == RowsAfterServing(old(nodes), served, record)
    {
      ghost var was := nodes;
      for i := 0 to |nodes|
        invariant |nodes| == |was|
        invariant forall j :: 0 <= j < i ==> nodes[j] == AfterServing(was[j], served, record)
        invariant forall j :: i <= j < |was| ==> nodes[j] == was[j]
      {
        var row := nodes[i];
        if row.recordNode.Some? && row.replayNode.Some? && row.replayNode.value in served {
          var alignedEvents := RecordEvents(record, row);
          if served[row.replayNode.value] !in alignedEvents {
            nodes := nodes[i := row.(outcome := IdentitySkew(LoneEvent(alignedEvents), Some(served[row.replayNode.value])))];
          }
        }
      }
    }
  }

  lemma IdListed(side: Side, rows: seq<AlignedNode>, i: nat)
    requires i < |rows| && IdOn(side, rows[i]).Some?
    ensures IdOn(side, rows[i]).value in IdsOn(side, rows)
  {
    NextRow(rows, i);
    IdsGrow(side, rows, i + 1);
    var here, all := IdsOn(side, rows[..i + 1]), IdsOn(side, rows);
    assert here[|here| - 1] == all[..|here|][|here| - 1] == all[|here| - 1];
  }
}
