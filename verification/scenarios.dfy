/**
 The exchanges of the repository's test client and the two-report sequence
 for one device, followed through the model.
 */
module Scenarios {
  import opened Wrappers
  import opened OrderedMaps
  import opened JsonValues
  import opened ReportQueue
  import opened Handler
  import opened Aggregator
  import opened QueueHandler

  /** The identity `iSpindel000.ABCDEF` of the test client's device. */
  const Id: string := RowId("iSpindel000", "ABCDEF")

  /** The test client's report `{"ID":"ABCDEF","name":"iSpindel000","angle":25.5}`. */
  const FirstReport: Json :=
    JObject([("ID", JString("ABCDEF")), ("name", JString("iSpindel000")), ("angle", JNumber("25.5"))])

  /** A later report of the same device that also carries a parameter it did not report before. */
  const SecondReport: Json :=
    JObject([("ID", JString("ABCDEF")), ("name", JString("iSpindel000")), ("angle", JNumber("26.0")),
             ("temperature", JNumber("20.1"))])

  /** The fields of the first report, as the Python dict holds them. */
  lemma FirstReportFields()
    ensures AsDict(FirstReport.members).keys == ["ID", "name", "angle"]
    ensures var d := AsDict(FirstReport.members).values;
      && d["ID"] == JString("ABCDEF") && d["name"] == JString("iSpindel000") && d["angle"] == JNumber("25.5")
  {
    var ms := FirstReport.members;
    assert MemberKeys(ms) == ["ID", "name", "angle"];
    AsDictOfDistinct(ms);
    assert ms[0].0 == "ID" && ms[1].0 == "name" && ms[2].0 == "angle";
  }

  /** The test client's report identifies device `iSpindel000.ABCDEF`, whatever `str()` does. */
  lemma FirstReportIdentity(show: Json -> string)
    ensures Identity(FirstReport, show) == Ok(Id)
  {
    FirstReportFields();
    var d := AsDict(FirstReport.members);
    assert "name" in d.keys && "ID" in d.keys;
    assert d.values["name"] == JString("iSpindel000") && d.values["ID"] == JString("ABCDEF");
  }

  /** The fields of the second report. */
  lemma SecondReportFields()
    ensures AsDict(SecondReport.members).keys == ["ID", "name", "angle", "temperature"]
    ensures var d := AsDict(SecondReport.members).values;
      && d["ID"] == JString("ABCDEF") && d["name"] == JString("iSpindel000") && d["angle"] == JNumber("26.0")
      && d["temperature"] == JNumber("20.1")
  {
    var ms := SecondReport.members;
    assert MemberKeys(ms) == ["ID", "name", "angle", "temperature"];
    AsDictOfDistinct(ms);
    assert ms[0].0 == "ID" && ms[1].0 == "name" && ms[2].0 == "angle" && ms[3].0 == "temperature";
  }

  /** The second report identifies the same device. */
  lemma SecondReportIdentity(show: Json -> string)
    ensures Identity(SecondReport, show) == Ok(Id)
  {
    SecondReportFields();
    var d := AsDict(SecondReport.members);
    assert "name" in d.keys && "ID" in d.keys;
    assert d.values["name"] == JString("iSpindel000") && d.values["ID"] == JString("ABCDEF");
  }

  /**
   The first report of a device not yet in the table: the device goes
   last, with rows `ID`, `name`, `angle` in report order and then `time`.
   */
  lemma FirstReportInserted(table: Table, stamp: string, show: Json -> string)
    requires Id !in table.keys
    ensures var m := MergeItem(table, Item(stamp, FirstReport), show);
      && m.Merged?
      && m.table.keys == table.keys + [Id]
      && m.table.values[Id].keys == ["ID", "name", "angle", TimeRow]
      && m.table.values[Id].values["angle"] == Reported(JNumber("25.5"))
      && m.table.values[Id].values[TimeRow] == Stamp(stamp)
  {
    var fields := AsDict(FirstReport.members);
    assert MergeItem(table, Item(stamp, FirstReport), show) == InsertDevice(table, Id, fields, stamp) by {
      FirstReportIdentity(show);
    }
    assert fields.keys == ["ID", "name", "angle"] && fields.values["angle"] == JNumber("25.5") by {
      FirstReportFields();
    }
    FirstReportInsert(table, fields, stamp);
  }

  /** The insertion of the first report's fields. */
  lemma FirstReportInsert(table: Table, fields: OMap<Json>, stamp: string)
    requires Id !in table.keys
    requires fields.keys == ["ID", "name", "angle"] && fields.values["angle"] == JNumber("25.5")
    ensures var m := InsertDevice(table, Id, fields, stamp);
      && m.Merged?
      && m.table.keys == table.keys + [Id]
      && m.table.values[Id].keys == ["ID", "name", "angle", TimeRow]
      && m.table.values[Id].values["angle"] == Reported(JNumber("25.5"))
      && m.table.values[Id].values[TimeRow] == Stamp(stamp)
  {
    assert fields.keys[0] != TimeRow && fields.keys[1] != TimeRow && fields.keys[2] != TimeRow;
  }

  /**
   The second report reaches a device whose rows are those of the first:
   `angle` is rewritten, then `temperature` has no row and the merge raises.
   No row is added and `time` keeps its value.
   */
  lemma NewParameterRaises(table: Table, stamp: string, show: Json -> string)
    requires Id in table.keys && table.values[Id].keys == ["ID", "name", "angle", TimeRow]
    ensures var m := MergeItem(table, Item(stamp, SecondReport), show);
      && m == Failed(NoSuchRow(RowId(Id, "temperature")), m.table)
      && m.table.keys == table.keys
      && m.table.values[Id].keys == ["ID", "name", "angle", TimeRow]
      && m.table.values[Id].values["angle"] == Reported(JNumber("26.0"))
      && m.table.values[Id].values[TimeRow] == table.values[Id].values[TimeRow]
  {
    var fields := AsDict(SecondReport.members);
    assert MergeItem(table, Item(stamp, SecondReport), show) == UpdateDevice(table, Id, fields, stamp) by {
      SecondReportIdentity(show);
    }
    assert fields.keys == ["ID", "name", "angle", "temperature"] && fields.values["angle"] == JNumber("26.0") by {
      SecondReportFields();
    }
    SecondReportUpdate(table, fields, stamp);
  }

  /** The update of the device with the second report's fields. */
  lemma SecondReportUpdate(table: Table, fields: OMap<Json>, stamp: string)
    requires Id in table.keys && table.values[Id].keys == ["ID", "name", "angle", TimeRow]
    requires fields.keys == ["ID", "name", "angle", "temperature"] && fields.values["angle"] == JNumber("26.0")
    ensures var m := UpdateDevice(table, Id, fields, stamp);
      && m == Failed(NoSuchRow(RowId(Id, "temperature")), m.table)
      && m.table.keys == table.keys
      && m.table.values[Id].keys == ["ID", "name", "angle", TimeRow]
      && m.table.values[Id].values["angle"] == Reported(JNumber("26.0"))
      && m.table.values[Id].values[TimeRow] == table.values[Id].values[TimeRow]
  {
    SecondReportRewrite(table.values[Id], fields, stamp);
  }

  /** The rewrite of the second report's fields over rows that lack `temperature`. */
  lemma SecondReportRewrite(before: Device, fields: OMap<Json>, stamp: string)
    requires fields.keys == ["ID", "name", "angle", "temperature"] && fields.values["angle"] == JNumber("26.0")
    requires "ID" in before.keys && "name" in before.keys && "angle" in before.keys
    requires "temperature" !in before.keys && TimeRow in before.keys
    ensures var r := RewriteRows(before, fields, stamp);
      && r.missing == Some("temperature")
      && r.device.values["angle"] == Reported(JNumber("26.0"))
      && r.device.values[TimeRow] == before.values[TimeRow]
  {
    RewriteRowsUnknownKey(before, fields, stamp, 3);
    assert fields.keys[..3] == ["ID", "name", "angle"];
  }

  /** The test client's first line reaches a fresh worker, which records the device and keeps running. */
  lemma FirstSighting(stamp: string, show: Json -> string)
    ensures var w := Iterate(Start([Item(stamp, FirstReport)]), show);
      && w.status == Running && w.queue == []
      && w.table.keys == [Id]
      && w.table.values[Id].keys == ["ID", "name", "angle", TimeRow]
      && w.table.values[Id].values["angle"] == Reported(JNumber("25.5"))
      && w.table.values[Id].values[TimeRow] == Stamp(stamp)
  {
    var w0 := Start([Item(stamp, FirstReport)]);
    FirstReportInserted(w0.table, stamp, show);
  }

  /**
   The same device reports again with a parameter it did not report the
   first time: the worker updates `angle`, then raises on `temperature` and
   stops for good, with `time` still showing the first arrival.
   */
  lemma NewParameterCrashesWorker(t1: string, t2: string, show: Json -> string)
    ensures var w := Iterate(Iterate(Start([Item(t1, FirstReport), Item(t2, SecondReport)]), show), show);
      && w.status == Crashed(NoSuchRow(RowId(Id, "temperature")))
      && w.queue == []
      && w.table.keys == [Id]
      && w.table.values[Id].keys == ["ID", "name", "angle", TimeRow]
      && w.table.values[Id].values["angle"] == Reported(JNumber("26.0"))
      && w.table.values[Id].values[TimeRow] == Stamp(t1)
  {
    var items := [Item(t1, FirstReport), Item(t2, SecondReport)];
    var w0 := Start(items);
    FirstReportInserted(w0.table, t1, show);
    var w1 := Iterate(w0, show);
    assert w1.status == Running && w1.queue == [items[1]];
    NewParameterRaises(w1.table, t2, show);
  }

  /**
   The test client's exchange: it sends its report line and then a second
   line on the same connection, but the handler reads only the first. Given
   a decoder that accepts the first line as the report, the client gets
   exactly one ACK and the report is queued; the second line changes nothing.
   */
  lemma TestClientExchange(q: seq<Item>, line: seq<byte>, second: seq<byte>, now: string,
                           utf8: seq<byte> -> Option<string>, decode: string -> Option<Json>)
    requires 0 < |line| && line[|line| - 1] == NEWLINE
    requires forall i :: 0 <= i < |line| - 1 ==> line[i] != NEWLINE
    requires var text := utf8(Strip(line)); text.Some? && decode(text.value) == Some(FirstReport)
    ensures Serve(q, line + second, now, utf8, decode) == Exchange(q + [Item(now, FirstReport)], [ACK])
  {
    ReadLineFirstLine(line, second);
    var x := Serve(q, line + second, now, utf8, decode);
    assert x.written == [ACK] by {
      var es := Handle(line + second, now, utf8, decode);
      assert Replies(es) == [ACK];
    }
  }

  /** A line that is UTF-8 but not JSON gets a NAK and queues nothing. */
  lemma NotJsonIsRefused(q: seq<Item>, stream: seq<byte>, now: string,
                         utf8: seq<byte> -> Option<string>, decode: string -> Option<Json>)
    requires var text := RequestText(stream, utf8); text.Some? && decode(text.value).None?
    ensures Serve(q, stream, now, utf8, decode) == Exchange(q, [NAK])
  {
    var es := Handle(stream, now, utf8, decode);
    assert Replies(es) == [NAK];
  }
}
