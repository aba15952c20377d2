/** The metric names the worker and the dispatcher emit, and the emission
    itself as an appended event: a name, the label values in order and a
    value. Counters ignore the value; histograms observe it. */
module Metrics {
  /** The metrics, named as the exposer registers them (see `Text`). */
  datatype MetricName =
    | LogsDroppedTotal
    | LogsFailParsedTotal
    | LogsTotal
    | LogsFilteredTotal
    | UserAgentCachedTotal
    | UserAgentCurrentCachedTotal
    | HostResponseTimeSeconds
    | UserAgentResponseTimeSeconds
    | UserAgentRequestsTotal
    | OsDeviceTypeRequestsTotal
    | UriResponseTimeSeconds
    | NginxRequestsTotal
  {
    /** The metric's exposed name. */
    function Text(): string {
      match this
      case LogsDroppedTotal => "logs_dropped_total"
      case LogsFailParsedTotal => "logs_fail_parsed_total"
      case LogsTotal => "logs_total"
      case LogsFilteredTotal => "logs_filtered_total"
      case UserAgentCachedTotal => "user_agent_cached_total"
      case UserAgentCurrentCachedTotal => "user_agent_current_cached_total"
      case HostResponseTimeSeconds => "host_response_time_seconds"
      case UserAgentResponseTimeSeconds => "user_agent_response_time_seconds"
      case UserAgentRequestsTotal => "user_agent_requests_total"
      case OsDeviceTypeRequestsTotal => "os_device_type_requests_total"
      case UriResponseTimeSeconds => "uri_response_time_seconds"
      case NginxRequestsTotal => "nginx_requests_total"
    }
  }

  /** One call of the exposer. */
  datatype Event = Event(name: MetricName, labels: seq<string>, value: real)

  /** A counter increment for `name` labelled by one host. */
  function HostCounter(name: MetricName, host: string): Event {
    Event(name, [host], 0.0)
  }

  /** How many events of `events` are `name` with label values `labels`. */
  function CountOf(events: seq<Event>, name: MetricName, labels: seq<string>): nat {
    if |events| == 0 then 0
    else
      var here := if events[0].name == name && events[0].labels == labels then 1 else 0;
      here + CountOf(events[1..], name, labels)
  }

  lemma {:induction false} CountOfAppend(a: seq<Event>, b: seq<Event>, name: MetricName, labels: seq<string>)
    ensures CountOf(a + b, name, labels) == CountOf(a, name, labels) + CountOf(b, name, labels)
  {
    if |a| > 0 {
      assert (a + b)[0] == a[0];
      assert (a + b)[1..] == a[1..] + b;
      CountOfAppend(a[1..], b, name, labels);
    } else {
      assert a + b == b;
    }
  }

  /** The names the events carry. */
  function Names(events: seq<Event>): set<MetricName> {
    if |events| == 0 then {} else {events[0].name} + Names(events[1..])
  }

  lemma {:induction false} NamesAppend(a: seq<Event>, b: seq<Event>)
    ensures Names(a + b) == Names(a) + Names(b)
  {
    if |a| > 0 {
      assert (a + b)[0] == a[0];
      assert (a + b)[1..] == a[1..] + b;
      NamesAppend(a[1..], b);
    } else {
      assert a + b == b;
    }
  }

  /** The names of one, two and three events. */
  lemma NamesOfFew(a: Event, b: Event, c: Event)
    ensures Names([a]) == {a.name}
    ensures Names([a, b]) == {a.name, b.name}
    ensures Names([a, b, c]) == {a.name, b.name, c.name}
  {
    assert [a][1..] == [];
    assert [a, b][1..] == [b];
    assert [a, b, c][1..] == [b, c];
    assert [b, c][1..] == [c];
    assert [c][1..] == [];
    assert Names([c]) == {c.name};
    assert Names([b, c]) == {b.name, c.name};
  }

  /** A name no event carries is counted zero times, whatever the labels. */
  lemma {:induction false} CountOfAbsent(events: seq<Event>, name: MetricName, labels: seq<string>)
    requires name !in Names(events)
    ensures CountOf(events, name, labels) == 0
  {
    if |events| > 0 {
      CountOfAbsent(events[1..], name, labels);
    }
  }
}
