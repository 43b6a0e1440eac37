/**
 * The service roster export page (pages/2_Dienste_Export.py): the map from service id to
 * service, one row per event holding the assignee of each service type, the fixed column
 * selection, and when a table and an export buffer exist.
 *
 * Events, services and each event's assigned services are what the church-management
 * client returns (`events.list`, `services.list`, `events.get(id).eventServices`); the
 * last is the parameter `servicesOf`. The date format `strftime("%d.%m")` is the parameter
 * `formatDay`.
 */
module ServicesExport {
  import opened Wrappers
  import opened Sequences
  import opened Times

  /** A service type of the roster (preaching, organ, …). */
  datatype Service = Service(id: int, name: string)

  datatype Event = Event(id: int, startDate: Instant)

  /** One assignment of an event: the service it fills and the assignee's name. */
  datatype EventService = EventService(serviceId: int, name: string)

  /** The values an event's dict holds: its id, its start, and texts. */
  datatype Value = Text(text: string) | EventId(id: int) | Timestamp(instant: Instant)

  /** An event's dict. */
  type Row = map<string, Value>

  /** The output table: one line per event, one cell per selected column, `None` for NaN. */
  type Table = seq<seq<Option<Value>>>

  datatype PageError =
    | UnknownService(serviceId: int)     // `service_map[s.serviceId]` raises KeyError
    | MissingColumns(names: seq<string>) // `df.loc[:, columns]` raises KeyError

  /** The columns of the exported table, in order. */
  const Columns: seq<string> :=
    ["Datum", "Predigt", "Co-Predigt", "Bibellesung", "OD 1", "OD 2", "Chorleitung", "Orgel", "Telefongottesdienst"]

  // ---------------------------------------------------------------- the service map

  /** `service_map` after assigning each service under its id in list order. */
  function ServiceMapOf(services: seq<Service>): (m: map<int, Service>)
    ensures forall id :: id in m ==> m[id] in services && m[id].id == id
    decreases |services|
  {
    if services == [] then map[]
    else
      var last := services[|services| - 1];
      ServiceMapOf(services[..|services| - 1])[last.id := last]
  }

  /** The loop that fills `service_map`. */
  method BuildServiceMap(services: seq<Service>) returns (serviceMap: map<int, Service>)
    ensures serviceMap == ServiceMapOf(services)
  {
    serviceMap := map[];
    var i := 0;
    while i < |services|
      invariant 0 <= i <= |services|
      invariant serviceMap == ServiceMapOf(services[..i])
    {
      assert services[..i + 1][..i] == services[..i];
      serviceMap := serviceMap[services[i].id := services[i]];
      i := i + 1;
    }
    assert services[..|services|] == services;
  }

  /** The map's keys are exactly the ids of the services. */
  lemma {:induction false} ServiceMapKeys(services: seq<Service>)
    ensures ServiceMapOf(services).Keys == set s | s in services :: s.id
    decreases |services|
  {
    if services != [] {
      var n := |services| - 1;
      var init := services[..n];
      ServiceMapKeys(init);
      assert services == init + [services[n]];
      assert (set s | s in services :: s.id) == (set s | s in init :: s.id) + {services[n].id};
    }
  }

  /** Each id maps to the last service in the list with that id. */
  lemma {:induction false} ServiceMapLastWins(services: seq<Service>, i: int)
    requires 0 <= i < |services|
    requires forall j :: i < j < |services| ==> services[j].id != services[i].id
    ensures services[i].id in ServiceMapOf(services)
    ensures ServiceMapOf(services)[services[i].id] == services[i]
    decreases |services|
  {
    var n := |services| - 1;
    var init := services[..n];
    var last := services[n];
    assert ServiceMapOf(services) == ServiceMapOf(init)[last.id := last];
    if i < n {
      assert init[i] == services[i];
      assert last.id != services[i].id;
      forall j | i < j < |init|
        ensures init[j].id != init[i].id
      {
        assert init[j] == services[j];
      }
      ServiceMapLastWins(init, i);
    }
  }

  // ---------------------------------------------------------------- one event's row

  /** The dict built for an event before its services are written: id, start and "Datum". */
  function InitialRow(e: Event, formatDay: Instant -> string): Row
  {
    map["id" := EventId(e.id), "startDate" := Timestamp(e.startDate), "Datum" := Text(formatDay(e.startDate))]
  }

  predicate AllKnown(services: seq<EventService>, serviceMap: map<int, Service>)
  {
    forall s :: s in services ==> s.serviceId in serviceMap
  }

  /** The service type name of an assignment. */
  function TypeName(s: EventService, serviceMap: map<int, Service>): string
    requires s.serviceId in serviceMap
  {
    serviceMap[s.serviceId].name
  }

  function TypeNames(services: seq<EventService>, serviceMap: map<int, Service>): set<string>
    requires AllKnown(services, serviceMap)
  {
    set s | s in services :: TypeName(s, serviceMap)
  }

  /** The inner loop: `row[service type] := assignee` for each assignment in order; an unknown id fails. */
  function AssignServices(row: Row, services: seq<EventService>, serviceMap: map<int, Service>)
    : (r: Result<Row, PageError>)
    ensures r.Ok? ==> row.Keys <= r.value.Keys
    ensures r.Err? ==>
      && r.error.UnknownService? && r.error.serviceId !in serviceMap
      && exists s :: s in services && s.serviceId == r.error.serviceId
    decreases |services|
  {
    if services == [] then Ok(row)
    else if services[0].serviceId !in serviceMap then Err(UnknownService(services[0].serviceId))
    else
      var r := AssignServices(row[TypeName(services[0], serviceMap) := Text(services[0].name)], services[1..], serviceMap);
      assert forall s :: s in services[1..] ==> s in services;
      r
  }

  /**
   * The inner loop fails exactly when an assignment names a service id missing from the map,
   * and then with the first such id.
   */
  lemma {:induction false} AssignServicesFailure(row: Row, services: seq<EventService>, serviceMap: map<int, Service>)
    ensures AssignServices(row, services, serviceMap).Err? <==> !AllKnown(services, serviceMap)
    ensures AssignServices(row, services, serviceMap).Err? ==> exists i ::
      && 0 <= i < |services| && services[i].serviceId !in serviceMap
      && (forall j :: 0 <= j < i ==> services[j].serviceId in serviceMap)
      && AssignServices(row, services, serviceMap).error == UnknownService(services[i].serviceId)
    decreases |services|
  {
    if services != [] {
      var s := services[0];
      var tail := services[1..];
      assert forall x :: x in services <==> x == s || x in tail by {
        assert services == [s] + tail;
      }
      if s.serviceId in serviceMap {
        var row' := row[TypeName(s, serviceMap) := Text(s.name)];
        AssignServicesFailure(row', tail, serviceMap);
        var res := AssignServices(row, services, serviceMap);
        if res.Err? {
          var i :| 0 <= i < |tail| && tail[i].serviceId !in serviceMap
            && (forall j :: 0 <= j < i ==> tail[j].serviceId in serviceMap)
            && res.error == UnknownService(tail[i].serviceId);
          assert services[i + 1] == tail[i];
          forall j | 0 <= j < i + 1 ensures services[j].serviceId in serviceMap {
            if j > 0 { assert services[j] == tail[j - 1]; }
          }
        }
      }
    }
  }

  /**
   * When every id is known the inner loop succeeds, adds exactly the type names as keys and
   * leaves every other key as it was.
   */
  lemma {:induction false} AssignServicesKeys(row: Row, services: seq<EventService>, serviceMap: map<int, Service>)
    requires AllKnown(services, serviceMap)
    ensures AssignServices(row, services, serviceMap).Ok?
    ensures AssignServices(row, services, serviceMap).value.Keys == row.Keys + TypeNames(services, serviceMap)
    ensures forall k :: k in row && k !in TypeNames(services, serviceMap) ==>
      AssignServices(row, services, serviceMap).value[k] == row[k]
    decreases |services|
  {
    if services != [] {
      var s := services[0];
      var tail := services[1..];
      assert forall x :: x in services <==> x == s || x in tail by {
        assert services == [s] + tail;
      }
      var row' := row[TypeName(s, serviceMap) := Text(s.name)];
      AssignServicesKeys(row', tail, serviceMap);
      assert TypeNames(services, serviceMap) == {TypeName(s, serviceMap)} + TypeNames(tail, serviceMap);
    }
  }

  /** When every id is known, each type name holds the assignee of the last assignment of that type. */
  lemma {:induction false} AssignServicesLastWins(row: Row, services: seq<EventService>, serviceMap: map<int, Service>, i: int)
    requires AllKnown(services, serviceMap) && 0 <= i < |services|
    requires forall j :: i < j < |services| ==> TypeName(services[j], serviceMap) != TypeName(services[i], serviceMap)
    ensures AssignServices(row, services, serviceMap).Ok?
    ensures TypeName(services[i], serviceMap) in AssignServices(row, services, serviceMap).value
    ensures AssignServices(row, services, serviceMap).value[TypeName(services[i], serviceMap)] == Text(services[i].name)
    decreases |services|
  {
    var s := services[0];
    var tail := services[1..];
    assert forall x :: x in tail ==> x in services;
    var row' := row[TypeName(s, serviceMap) := Text(s.name)];
    AssignServicesKeys(row', tail, serviceMap);
    if i == 0 {
      var t := TypeName(s, serviceMap);
      forall x | x in tail ensures TypeName(x, serviceMap) != t {
        var j :| 0 <= j < |tail| && tail[j] == x;
        assert services[j + 1] == x;
      }
      assert t !in TypeNames(tail, serviceMap);
    } else {
      assert services[i] == tail[i - 1];
      assert forall j :: i - 1 < j < |tail| ==> tail[j] == services[j + 1];
      AssignServicesLastWins(row', tail, serviceMap, i - 1);
    }
  }

  /** The event's row: the initial dict, the assignments written, then "startDate" and "id" popped. */
  function EventRow(e: Event, services: seq<EventService>, serviceMap: map<int, Service>, formatDay: Instant -> string)
    : (r: Result<Row, PageError>)
    ensures r.Ok? ==> "Datum" in r.value && "startDate" !in r.value && "id" !in r.value
    ensures r.Err? ==> r.error.UnknownService? && r.error.serviceId !in serviceMap
  {
    match AssignServices(InitialRow(e, formatDay), services, serviceMap)
    case Err(err) => Err(err)
    case Ok(row) => Ok(row - {"startDate", "id"})
  }

  /**
   * A finished row's keys are "Datum" and the service type names, less "startDate" and "id"
   * (a type of that name is popped with them); every value is a text; "Datum" holds the
   * formatted start unless a service type of that name overwrote it.
   */
  lemma EventRowSpec(e: Event, services: seq<EventService>, serviceMap: map<int, Service>, formatDay: Instant -> string)
    ensures EventRow(e, services, serviceMap, formatDay).Err? <==> !AllKnown(services, serviceMap)
    ensures EventRow(e, services, serviceMap, formatDay).Ok? ==>
      var r := EventRow(e, services, serviceMap, formatDay).value;
      && r.Keys == ({"Datum"} + TypeNames(services, serviceMap)) - {"startDate", "id"}
      && (forall k :: k in r ==> r[k].Text?)
      && ("Datum" !in TypeNames(services, serviceMap) ==> r["Datum"] == Text(formatDay(e.startDate)))
  {
    var init := InitialRow(e, formatDay);
    AssignServicesFailure(init, services, serviceMap);
    var res := AssignServices(init, services, serviceMap);
    if res.Ok? {
      AssignServicesKeys(init, services, serviceMap);
      var row := res.value;
      var r := row - {"startDate", "id"};
      assert init.Keys == {"id", "startDate", "Datum"};
      forall k | k in r
        ensures r[k].Text?
      {
        if k !in TypeNames(services, serviceMap) {
          assert k == "Datum";
        } else {
          var i :| 0 <= i < |services| && TypeName(services[i], serviceMap) == k;
          AssignedTypeIsText(init, services, serviceMap, i);
        }
      }
    }
  }

  /** After the inner loop a written type name holds a text. */
  lemma AssignedTypeIsText(row: Row, services: seq<EventService>, serviceMap: map<int, Service>, i: int)
    requires 0 <= i < |services| && AllKnown(services, serviceMap)
    ensures AssignServices(row, services, serviceMap).Ok?
    ensures TypeName(services[i], serviceMap) in AssignServices(row, services, serviceMap).value
    ensures AssignServices(row, services, serviceMap).value[TypeName(services[i], serviceMap)].Text?
  {
    var t := TypeName(services[i], serviceMap);
    var k := LastOfType(services, serviceMap, t, i);
    AssignServicesLastWins(row, services, serviceMap, k);
  }

  /** An index at or after `i` whose assignment is the last one of type `t`. */
  lemma LastOfType(services: seq<EventService>, serviceMap: map<int, Service>, t: string, i: int) returns (k: int)
    requires 0 <= i < |services| && AllKnown(services, serviceMap) && TypeName(services[i], serviceMap) == t
    ensures i <= k < |services| && TypeName(services[k], serviceMap) == t
    ensures forall j :: k < j < |services| ==> TypeName(services[j], serviceMap) != t
    decreases |services| - i
  {
    if exists j :: i < j < |services| && TypeName(services[j], serviceMap) == t {
      var j :| i < j < |services| && TypeName(services[j], serviceMap) == t;
      k := LastOfType(services, serviceMap, t, j);
    } else {
      k := i;
    }
  }

  // ---------------------------------------------------------------- all rows

  /** The rows of all events in order; the first event with an unknown service id fails. */
  function EventRows(events: seq<Event>, serviceMap: map<int, Service>,
                     servicesOf: int -> seq<EventService>, formatDay: Instant -> string)
    : (r: Result<seq<Row>, PageError>)
    ensures r.Ok? ==> |r.value| == |events|
    decreases |events|
  {
    if events == [] then Ok([])
    else
      var n := |events| - 1;
      match EventRows(events[..n], serviceMap, servicesOf, formatDay)
      case Err(err) => Err(err)
      case Ok(rows) =>
        match EventRow(events[n], servicesOf(events[n].id), serviceMap, formatDay)
        case Err(err) => Err(err)
        case Ok(row) => Ok(rows + [row])
  }

  /** One row per event, in event order: the i-th row is the i-th event's row. */
  lemma {:induction false} EventRowsSpec(events: seq<Event>, serviceMap: map<int, Service>,
                                         servicesOf: int -> seq<EventService>, formatDay: Instant -> string)
    ensures EventRows(events, serviceMap, servicesOf, formatDay).Ok? <==>
      forall i :: 0 <= i < |events| ==> EventRow(events[i], servicesOf(events[i].id), serviceMap, formatDay).Ok?
    ensures EventRows(events, serviceMap, servicesOf, formatDay).Ok? ==>
      var rows := EventRows(events, serviceMap, servicesOf, formatDay).value;
      && |rows| == |events|
      && forall i :: 0 <= i < |events| ==> Ok(rows[i]) == EventRow(events[i], servicesOf(events[i].id), serviceMap, formatDay)
    decreases |events|
  {
    if events != [] {
      var n := |events| - 1;
      var init := events[..n];
      EventRowsSpec(init, serviceMap, servicesOf, formatDay);
      var last := EventRow(events[n], servicesOf(events[n].id), serviceMap, formatDay);
      var all := EventRows(events, serviceMap, servicesOf, formatDay);
      forall i | 0 <= i < n
        ensures init[i] == events[i]
      {
      }
      if all.Ok? {
        var rows := EventRows(init, serviceMap, servicesOf, formatDay).value;
        assert all.value == rows + [last.value];
        forall i | 0 <= i < |events|
          ensures Ok(all.value[i]) == EventRow(events[i], servicesOf(events[i].id), serviceMap, formatDay)
        {
          if i < n {
            assert all.value[i] == rows[i];
          }
        }
      }
    }
  }

  /** A failure among the first events is the failure of the whole list. */
  lemma {:induction false} EventRowsPrefixFailure(events: seq<Event>, n: nat, serviceMap: map<int, Service>,
                                                  servicesOf: int -> seq<EventService>, formatDay: Instant -> string)
    requires n <= |events|
    requires EventRows(events[..n], serviceMap, servicesOf, formatDay).Err?
    ensures EventRows(events, serviceMap, servicesOf, formatDay) == EventRows(events[..n], serviceMap, servicesOf, formatDay)
    decreases |events| - n
  {
    if n < |events| {
      var m := |events| - 1;
      assert events[..m][..n] == events[..n];
      EventRowsPrefixFailure(events[..m], n, serviceMap, servicesOf, formatDay);
    } else {
      assert events[..n] == events;
    }
  }

  /** The inner loop for one event: its dict, each assignment written in order, then the two pops. */
  method FillRow(e: Event, eventServices: seq<EventService>, serviceMap: map<int, Service>, formatDay: Instant -> string)
    returns (result: Result<Row, PageError>)
    ensures result == EventRow(e, eventServices, serviceMap, formatDay)
  {
    var row := InitialRow(e, formatDay);
    var k := 0;
    while k < |eventServices|
      invariant 0 <= k <= |eventServices|
      invariant AssignServices(row, eventServices[k..], serviceMap)
        == AssignServices(InitialRow(e, formatDay), eventServices, serviceMap)
    {
      var s := eventServices[k];
      assert eventServices[k..][1..] == eventServices[k + 1..];
      if s.serviceId !in serviceMap {
        return Err(UnknownService(s.serviceId));
      }
      row := row[serviceMap[s.serviceId].name := Text(s.name)];
      k := k + 1;
    }
    assert eventServices[k..] == [];
    var written := row;
    row := row - {"startDate"};
    row := row - {"id"};
    assert row == written - {"startDate", "id"};
    result := Ok(row);
  }

  /** The whole loop fails with the error of the first event whose row fails. */
  lemma EventRowsFirstFailure(events: seq<Event>, i: int, serviceMap: map<int, Service>,
                              servicesOf: int -> seq<EventService>, formatDay: Instant -> string)
    requires 0 <= i < |events|
    requires forall j :: 0 <= j < i ==> EventRow(events[j], servicesOf(events[j].id), serviceMap, formatDay).Ok?
    requires EventRow(events[i], servicesOf(events[i].id), serviceMap, formatDay).Err?
    ensures EventRows(events, serviceMap, servicesOf, formatDay)
      == Err(EventRow(events[i], servicesOf(events[i].id), serviceMap, formatDay).error)
  {
    var prefix := events[..i + 1];
    assert prefix[..i] == events[..i] && prefix[i] == events[i];
    EventRowsSpec(events[..i], serviceMap, servicesOf, formatDay);
    EventRowsPrefixFailure(events, i + 1, serviceMap, servicesOf, formatDay);
  }

  /** The outer loop over events; the first failing event ends it. */
  method BuildRows(events: seq<Event>, serviceMap: map<int, Service>,
                   servicesOf: int -> seq<EventService>, formatDay: Instant -> string)
    returns (result: Result<seq<Row>, PageError>)
    ensures result == EventRows(events, serviceMap, servicesOf, formatDay)
  {
    var rows: seq<Row> := [];
    var i := 0;
    while i < |events|
      invariant 0 <= i <= |events|
      invariant EventRows(events[..i], serviceMap, servicesOf, formatDay) == Ok(rows)
    {
      var row := FillRow(events[i], servicesOf(events[i].id), serviceMap, formatDay);
      assert events[..i + 1][..i] == events[..i];
      assert events[..i + 1][i] == events[i];
      if row.Err? {
        EventRowsPrefixFailure(events, i + 1, serviceMap, servicesOf, formatDay);
        return Err(row.error);
      }
      rows := rows + [row.value];
      i := i + 1;
    }
    assert events[..|events|] == events;
    result := Ok(rows);
  }

  // ---------------------------------------------------------------- the column selection

  /** The frame's columns: every key of some row. */
  function AllKeys(rows: seq<Row>): set<string>
  {
    set r, k | r in rows && k in r :: k
  }

  /** `df.loc[:, columns]`: fails on a label no row has; otherwise one line per row, NaN where a row lacks the key. */
  function SelectColumns(rows: seq<Row>, columns: seq<string>): (r: Result<Table, PageError>)
    ensures r.Err? <==> exists c :: c in columns && c !in AllKeys(rows)
    ensures r.Ok? ==> |r.value| == |rows| && forall i :: 0 <= i < |rows| ==>
      |r.value[i]| == |columns| && forall j :: 0 <= j < |columns| ==>
        r.value[i][j] == if columns[j] in rows[i] then Some(rows[i][columns[j]]) else None
  {
    var keys := AllKeys(rows);
    var missing := Filter(columns, c => c !in keys);
    if missing != [] then
      assert missing[0] in missing;
      Err(MissingColumns(missing))
    else
      Ok(seq(|rows|, i requires 0 <= i < |rows| =>
           seq(|columns|, j requires 0 <= j < |columns| =>
             if columns[j] in rows[i] then Some(rows[i][columns[j]]) else None)))
  }

  // ---------------------------------------------------------------- the page

  /**
   * The page's `df` after a run: `None` when there are no events, otherwise the selected
   * columns of the event rows built with the service map.
   */
  function ServicesTable(events: seq<Event>, services: seq<Service>,
                         servicesOf: int -> seq<EventService>, formatDay: Instant -> string)
    : (r: Result<Option<Table>, PageError>)
    ensures r == Ok(None) <==> |events| == 0
    ensures r.Ok? && r.value.Some? ==>
      && |r.value.value| == |events|
      && forall i :: 0 <= i < |events| ==> |r.value.value[i]| == |Columns|
  {
    if |events| == 0 then Ok(None)
    else
      match EventRows(events, ServiceMapOf(services), servicesOf, formatDay)
      case Err(err) => Err(err)
      case Ok(rows) =>
        match SelectColumns(rows, Columns)
        case Err(err) => Err(err)
        case Ok(table) => Ok(Some(table))
  }

  /**
   * No table exactly when there are no events; a table has one line per event, in event order,
   * with the nine columns, each cell the event row's value for that column or NaN.
   */
  lemma ServicesTableSpec(events: seq<Event>, services: seq<Service>,
                          servicesOf: int -> seq<EventService>, formatDay: Instant -> string)
    ensures ServicesTable(events, services, servicesOf, formatDay) == Ok(None) <==> |events| == 0
    ensures var t := ServicesTable(events, services, servicesOf, formatDay);
      t.Ok? && t.value.Some? ==>
        && |t.value.value| == |events|
        && forall i :: 0 <= i < |events| ==>
          var row := EventRow(events[i], servicesOf(events[i].id), ServiceMapOf(services), formatDay);
          && row.Ok?
          && |t.value.value[i]| == |Columns|
          && forall j :: 0 <= j < |Columns| ==>
               t.value.value[i][j] == if Columns[j] in row.value then Some(row.value[Columns[j]]) else None
  {
    EventRowsSpec(events, ServiceMapOf(services), servicesOf, formatDay);
  }

  /**
   * The page run: `df` as above, and whether an export buffer is produced, which happens
   * exactly when `df` is not `None`.
   */
  method RunServicesPage(events: seq<Event>, services: seq<Service>,
                         servicesOf: int -> seq<EventService>, formatDay: Instant -> string)
    returns (df: Result<Option<Table>, PageError>, produceExport: bool)
    ensures df == ServicesTable(events, services, servicesOf, formatDay)
    ensures produceExport <==> df.Ok? && df.value.Some?
  {
    var serviceMap := BuildServiceMap(services);
    df := Ok(None);
    if |events| > 0 {
      var rows := BuildRows(events, serviceMap, servicesOf, formatDay);
      if rows.Err? {
        df := Err(rows.error);
      } else {
        var table := SelectColumns(rows.value, Columns);
        if table.Err? {
          df := Err(table.error);
        } else {
          df := Ok(Some(table.value));
        }
      }
    }
    produceExport := df.Ok? && df.value.Some?;
  }
}
