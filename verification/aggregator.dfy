/**
 The merge step of `ISpindelQueueHandler.run`: one queued report updates
 the device table that the Treeview displays. The table maps each device
 identity to that device's rows (parameter name to displayed value), both
 levels in insertion order, as the Treeview lists them.
 */
module Aggregator {
  import opened Wrappers
  import opened OrderedMaps
  import opened JsonValues
  import opened ReportQueue

  /** What a parameter row displays: a reported value, or the arrival time on the `time` row. */
  datatype Cell = Reported(value: Json) | Stamp(at: string)

  /** The rows under one device, keyed by parameter name. */
  type Device = OMap<Cell>

  /** The devices, keyed by identity, in the order they were first seen. */
  type Table = OMap<Device>

  /** The synthetic row holding the time of the last update. */
  const TimeRow: string := "time"

  /**
   The exceptions a merge can raise. Python raises them out of `run()`:
   `NotADict` and `MissingKey` from the subscripts of line 125 (TypeError,
   KeyError), `DuplicateRow` from inserting an iid that exists (line 131),
   `NoSuchRow` from `treeview.item` on an iid that does not (lines 135-136).
   */
  datatype MergeError = NotADict | MissingKey(key: string) | DuplicateRow(iid: string) | NoSuchRow(iid: string)

  /**
   A merge either completes or raises; either way `table` is what the
   Treeview holds afterwards, including the writes made before the raise.
   */
  datatype Merge = Merged(table: Table) | Failed(error: MergeError, table: Table)

  /** `"{}".format(v)`: a string is used as is; any other value goes through Python's `str()`, given as `show`. */
  function Format(v: Json, show: Json -> string): string
  {
    if v.JString? then v.text else show(v)
  }

  /** The iid `"{}.{}".format(a, b)`: a device identity, or a parameter row under a device. */
  function RowId(a: string, b: string): (iid: string)
    ensures |iid| == |a| + 1 + |b|
    ensures iid[..|a|] == a && iid[|a|] == '.' && iid[|a| + 1..] == b
  {
    a + "." + b
  }

  /**
   The device identity of line 125: `name` and `ID` joined by a dot. The
   subscript on `name` is evaluated first, so a report lacking both reports
   `name` missing; a report that is not an object cannot be subscripted.
   */
  function Identity(report: Json, show: Json -> string): (r: Result<string, MergeError>)
    ensures r.Ok? <==> report.JObject? && "name" in AsDict(report.members).keys && "ID" in AsDict(report.members).keys
    ensures !report.JObject? ==> r == Err(NotADict)
    ensures report.JObject? && "name" !in AsDict(report.members).keys ==> r == Err(MissingKey("name"))
    ensures report.JObject? && "name" in AsDict(report.members).keys && "ID" !in AsDict(report.members).keys ==> r == Err(MissingKey("ID"))
    ensures r.Ok? ==> var d := AsDict(report.members).values;
      d["name"].JString? && d["ID"].JString? ==> r.value == d["name"].text + "." + d["ID"].text
  {
    if !report.JObject? then Err(NotADict)
    else
      var d := AsDict(report.members);
      if "name" !in d.keys then Err(MissingKey("name"))
      else if "ID" !in d.keys then Err(MissingKey("ID"))
      else Ok(RowId(Format(d.values["name"], show), Format(d.values["ID"], show)))
  }

  /** The rows line 130 inserts: one per report key, in report order, showing the reported value. */
  function ReportRows(fields: OMap<Json>): (rows: Device)
    ensures rows.keys == fields.keys
    ensures forall k :: k in fields.values ==> rows.values[k] == Reported(fields.values[k])
  {
    OrderedMap(fields.keys, map k | k in fields.values :: Reported(fields.values[k]))
  }

  /**
   First sighting (lines 126-131): the device goes after every existing
   device, with one row per report key in report order and then the `time`
   row. A report that itself has a `time` key makes line 131 insert an iid
   that line 130 already inserted, which raises after the device and its
   report rows are in place.
   */
  function InsertDevice(table: Table, id: string, fields: OMap<Json>, stamp: string): (m: Merge)
    requires id !in table.keys
    ensures m.table.keys == table.keys + [id]
    ensures forall other :: other in table.values ==> m.table.values[other] == table.values[other]
    ensures m.Merged? <==> TimeRow !in fields.keys
    ensures m.Merged? ==> m.table.values[id].keys == fields.keys + [TimeRow]
    ensures m.Merged? ==> m.table.values[id].values[TimeRow] == Stamp(stamp)
    ensures m.Failed? ==> m.error == DuplicateRow(RowId(id, TimeRow)) && m.table.values[id].keys == fields.keys
    ensures m.Failed? ==> m.table.values[id].values[TimeRow] == Reported(fields.values[TimeRow])
    ensures forall k :: k in fields.values && k != TimeRow ==> m.table.values[id].values[k] == Reported(fields.values[k])
  {
    var rows := ReportRows(fields);
    if TimeRow in fields.keys then
      Failed(DuplicateRow(RowId(id, TimeRow)), Put(table, id, rows))
    else
      Merged(Put(table, id, Put(rows, TimeRow, Stamp(stamp))))
  }

  /** How far the loop of line 134 got: the row values, and how many keys had their row rewritten. */
  datatype RowsWritten = RowsWritten(rows: map<string, Cell>, written: nat)

  /**
   The loop of lines 134-135 over the rows of one device: for each key in
   order, `treeview.item` rewrites the existing row; the first key with no
   row raises and stops the loop. No row is ever added.
   */
  function WriteRows(rows: map<string, Cell>, ks: seq<string>, fields: map<string, Json>): (w: RowsWritten)
    requires forall i :: 0 <= i < |ks| ==> ks[i] in fields
    ensures w.rows.Keys == rows.Keys
    ensures w.written <= |ks|
    ensures w.written < |ks| ==> ks[w.written] !in rows
    ensures forall j :: 0 <= j < w.written ==> ks[j] in rows
    decreases |ks|
  {
    if |ks| == 0 || ks[0] !in rows then RowsWritten(rows, 0)
    else
      var rest := WriteRows(rows[ks[0] := Reported(fields[ks[0]])], ks[1..], fields);
      assert forall j :: 1 <= j < rest.written + 1 ==> ks[j] == ks[1..][j - 1];
      RowsWritten(rest.rows, rest.written + 1)
  }

  /**
   The values `WriteRows` leaves: the rows of the keys it reached show the
   reported values, every other row keeps its value.
   */
  lemma {:induction false} WriteRowsValues(rows: map<string, Cell>, ks: seq<string>, fields: map<string, Json>)
    requires forall i :: 0 <= i < |ks| ==> ks[i] in fields
    ensures var w := WriteRows(rows, ks, fields);
      forall j :: 0 <= j < w.written ==> w.rows[ks[j]] == Reported(fields[ks[j]])
    ensures var w := WriteRows(rows, ks, fields);
      forall k :: k in rows && k !in ks[..w.written] ==> w.rows[k] == rows[k]
    ensures var w := WriteRows(rows, ks, fields);
      w.written == |ks| ==> forall k :: k in rows && k !in ks ==> w.rows[k] == rows[k]
    decreases |ks|
  {
    assert ks[..|ks|] == ks;
    if |ks| > 0 && ks[0] in rows {
      var first := rows[ks[0] := Reported(fields[ks[0]])];
      WriteRowsValues(first, ks[1..], fields);
      var rest := WriteRows(first, ks[1..], fields);
      var n := rest.written;
      assert ks[..n + 1] == [ks[0]] + ks[1..][..n];
      assert rest.rows[ks[0]] == Reported(fields[ks[0]]) by {
        if ks[0] in ks[1..][..n] {
          var j :| 0 <= j < n && ks[1..][j] == ks[0];
          assert ks[1..][j] == ks[j + 1];
        }
      }
      forall j | 1 <= j < n + 1
        ensures rest.rows[ks[j]] == Reported(fields[ks[j]])
      {
        assert ks[j] == ks[1..][j - 1];
      }
    }
  }

  /** The rows of a known device after a later sighting, and the first key that had no row, if any. */
  datatype Rewrite = Rewrite(device: Device, missing: Option<string>)

  /**
   Lines 134-136 on the rows of one device: each report key rewrites its
   row, then the `time` row takes the new arrival time. No row is added or
   moved; the rewrite stops at the first key, `time` included, with no row.
   */
  function RewriteRows(before: Device, fields: OMap<Json>, stamp: string): (r: Rewrite)
    ensures r.device.keys == before.keys
    ensures r.missing.None? <==> (forall k :: k in fields.keys ==> k in before.keys) && TimeRow in before.keys
  {
    var w := WriteRows(before.values, fields.keys, fields.values);
    if w.written < |fields.keys| then Rewrite(WithValues(before, w.rows), Some(fields.keys[w.written]))
    else if TimeRow !in w.rows then Rewrite(WithValues(before, w.rows), Some(TimeRow))
    else Rewrite(WithValues(before, w.rows[TimeRow := Stamp(stamp)]), None)
  }

  /**
   A completed rewrite: every report key shows its new value (the later
   value wins), `time` shows the new arrival time, and every parameter the
   report does not mention keeps its value.
   */
  lemma RewriteRowsValues(before: Device, fields: OMap<Json>, stamp: string)
    requires RewriteRows(before, fields, stamp).missing.None?
    ensures var after := RewriteRows(before, fields, stamp).device;
      && after.values[TimeRow] == Stamp(stamp)
      && (forall k :: k in fields.values && k != TimeRow ==> after.values[k] == Reported(fields.values[k]))
      && (forall k :: k in before.values && k !in fields.values && k != TimeRow ==> after.values[k] == before.values[k])
  {
    var w := WriteRows(before.values, fields.keys, fields.values);
    assert w.written == |fields.keys| && TimeRow in before.keys;
    var after := RewriteRows(before, fields, stamp).device;
    assert after.values == w.rows[TimeRow := Stamp(stamp)];
    assert forall k :: k in fields.values ==> w.rows[k] == Reported(fields.values[k]) by {
      WriteRowsValues(before.values, fields.keys, fields.values);
      forall k | k in fields.values
        ensures w.rows[k] == Reported(fields.values[k])
      {
        var i :| 0 <= i < |fields.keys| && fields.keys[i] == k;
      }
    }
    assert forall k :: k in before.values && k !in fields.values ==> w.rows[k] == before.values[k] by {
      WriteRowsValues(before.values, fields.keys, fields.values);
    }
  }

  /**
   A rewrite that meets a report key with no row stops there, naming the
   first such key in report order, after rewriting the rows of the keys
   before it; all other rows keep their values.
   */
  lemma RewriteRowsUnknownKey(before: Device, fields: OMap<Json>, stamp: string, i: nat)
    requires i < |fields.keys| && fields.keys[i] !in before.keys
    requires forall j :: 0 <= j < i ==> fields.keys[j] in before.keys
    ensures var r := RewriteRows(before, fields, stamp);
      && r.missing == Some(fields.keys[i])
      && (forall j :: 0 <= j < i ==> r.device.values[fields.keys[j]] == Reported(fields.values[fields.keys[j]]))
      && (forall k :: k in before.values && k !in fields.keys[..i] ==> r.device.values[k] == before.values[k])
  {
    var w := WriteRows(before.values, fields.keys, fields.values);
    assert w.written == i;
    WriteRowsValues(before.values, fields.keys, fields.values);
  }

  /**
   A later sighting (lines 132-136) in the table: only the device's own
   rows change, and the merge raises, naming the row iid, when the rewrite
   meets a key with no row. No device is added or moved.
   */
  function UpdateDevice(table: Table, id: string, fields: OMap<Json>, stamp: string): (m: Merge)
    requires id in table.keys
    ensures m.table.keys == table.keys
    ensures forall other :: other in table.values && other != id ==> m.table.values[other] == table.values[other]
    ensures m.table.values[id] == RewriteRows(table.values[id], fields, stamp).device
    ensures m.Merged? <==> RewriteRows(table.values[id], fields, stamp).missing.None?
    ensures m.Failed? ==> m.error == NoSuchRow(RowId(id, RewriteRows(table.values[id], fields, stamp).missing.value))
  {
    var r := RewriteRows(table.values[id], fields, stamp);
    var t := Put(table, id, r.device);
    assert Get(t, id) == Some(r.device);
    match r.missing
    case None => Merged(t)
    case Some(k) => Failed(NoSuchRow(RowId(id, k)), t)
  }

  /**
   A sighting of device `id` (lines 126-136): the device is inserted if the
   Treeview does not have it and rewritten if it does. Either way the device
   is present afterwards, a new device goes at the end, the rows of a device
   already present are never added or moved, and no other device changes.
   */
  function Sighting(table: Table, id: string, fields: OMap<Json>, stamp: string): (m: Merge)
    ensures table.keys <= m.table.keys && |m.table.keys| <= |table.keys| + 1
    ensures id in m.table.values
    ensures forall known :: known in table.values ==> known in m.table.values && m.table.values[known].keys == table.values[known].keys
    ensures forall other :: other in table.values && other != id ==> m.table.values[other] == table.values[other]
  {
    if id !in table.keys then
      var m := InsertDevice(table, id, fields, stamp);
      assert table.keys <= m.table.keys by {
        assert m.table.keys == table.keys + [id];
      }
      m
    else
      var m := UpdateDevice(table, id, fields, stamp);
      assert m.table.values[id].keys == table.values[id].keys;
      m
  }

  /**
   One report merged into the table (lines 125-136): the identity is
   computed first and a report without one leaves the table as it was;
   otherwise the report's fields are a sighting of that device.
   */
  function MergeItem(table: Table, item: Item, show: Json -> string): (m: Merge)
    ensures table.keys <= m.table.keys && |m.table.keys| <= |table.keys| + 1
    ensures forall id :: id in table.values ==> id in m.table.values && m.table.values[id].keys == table.values[id].keys
    ensures Identity(item.report, show).Err? ==> m == Failed(Identity(item.report, show).error, table)
    ensures Identity(item.report, show).Ok? ==> forall other :: other in table.values && other != Identity(item.report, show).value ==>
      m.table.values[other] == table.values[other]
  {
    match Identity(item.report, show)
    case Err(e) => Failed(e, table)
    case Ok(id) => Sighting(table, id, AsDict(item.report.members), item.stamp)
  }

  /** Every device has its `time` row. */
  ghost predicate Timed(table: Table)
  {
    forall id :: id in table.values ==> TimeRow in table.values[id].keys
  }

  /**
   Every device the merge leaves has a `time` row, whether the merge
   completes or raises: a first sighting adds one (from the report, when it
   raises on the duplicate), and a later sighting adds no row and removes none.
   */
  lemma MergeKeepsTimed(table: Table, item: Item, show: Json -> string)
    requires Timed(table)
    ensures Timed(MergeItem(table, item, show).table)
  {
  }

  /**
   For a table whose devices all have a `time` row, a later sighting
   completes exactly when every key of the report already has a row: the
   rewrite never adds a parameter, so a key first seen now raises.
   */
  lemma KnownDeviceMergeCompletes(table: Table, item: Item, show: Json -> string)
    requires Timed(table)
    requires Identity(item.report, show).Ok? && Identity(item.report, show).value in table.keys
    ensures var id := Identity(item.report, show).value;
      MergeItem(table, item, show).Merged? <==> forall k :: k in AsDict(item.report.members).keys ==> k in table.values[id].keys
  {
  }
}
