/** The telemetry event as the AI engine and the dashboard read it, and the shared option type. */
module Telemetry {

  datatype Option<+T> = None | Some(value: T)
  {
    function GetOr(default: T): T {
      if Some? then value else default
    }
  }

  datatype Kind = Exec | NetFlow | FileAccess | UsbEvent | ShellCmd | ToolExec | Other

  /** A parsed event. A missing or empty text field is "", a missing number `None`; `ts` is
      `None` when the timestamp is missing or does not parse. */
  datatype Event = Event(
    student: string, session: string, ts: Option<int>, kind: Kind,
    comm: string, cmd: string, argv: seq<string>, tool: Option<string>,
    daddr: string, dport: Option<int>,
    bytesOut: Option<int>, bytes: Option<int>, bytesIn: Option<int>,
    path: string, action: string)

  /** A monitored session: student id and session id. */
  type Key = (string, string)

  function KeyOf(ev: Event): Key {
    (ev.student, ev.session)
  }

  predicate Tracked(ev: Event) {
    ev.student != "" && ev.session != ""
  }
}
