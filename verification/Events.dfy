/** The wire event and the dynamic values its data may hold. */
module Events {
  import opened Basics
  import opened GoNumbers

  /** A value of a data map. Other stands for the remaining scalars (floats among them):
      its kind, and the text the program prints for it. */
  datatype Value =
    | Null
    | Str(s: string)
    | Bool(b: bool)
    | Int(n: Int64)
    | Other(kind: string, text: string)
    | List(items: seq<Value>)
    | Obj(fields: map<string, Value>)
  {
    predicate IsScalar() {
      !List? && !Obj?
    }
  }

  type Scalar = v: Value | v.IsScalar() witness Null

  /** What a scalar is printed as for rule matching and hashing. */
  function ScalarText(v: Scalar): string {
    match v
    case Null => ""
    case Str(s) => s
    case Bool(b) => if b then "true" else "false"
    case Int(n) => Itoa(n)
    case Other(_, text) => text
  }

  datatype Recorder = Recorder(id: string, version: Int64)

  datatype EventGroup = EventGroup(id: string, version: Int64, state: bool)

  datatype EventAction = EventAction(id: string, data: Option<map<string, Value>>, count: Int64)

  datatype LogEvent = LogEvent(
    recorder: Recorder,
    product: string,
    ids: Option<map<string, string>>,
    internal: bool,
    time: Int64,
    build: string,
    session: string,
    group: EventGroup,
    bucket: Int64,
    event: EventAction,
    systemData: Option<map<string, Value>>,
    clientData: Option<map<string, Value>>)
  {
    function Count(): Int64 {
      event.count
    }

    function WithCount(n: Int64): LogEvent {
      this.(event := event.(count := n))
    }
  }
}
