/**
 The frames of the Native API as far as the two ends of a link act on them. Payloads
 keep the fields that decide behaviour; the values of states are left abstract.
*/
module Wire {
  import opened Words

  datatype Kind =
    | Sensor | BinarySensor | Switch | Light | Climate | Fan | Cover | Number | Select | TextSensor
    | Button | OtherKind

  datatype State = Unavailable | Value(kind: Kind, content: int)

  /** Kinds that have a list-entities and a state message. */
  predicate Listed(k: Kind) {
    !k.Button? && !k.OtherKind?
  }

  /** Kinds that have a command message. */
  predicate Commandable(k: Kind) {
    k.Switch? || k.Light? || k.Climate? || k.Fan? || k.Cover? || k.Number? || k.Select? || k.Button?
  }

  function DomainOf(k: Kind): (domain: string)
    ensures '.' !in domain
  {
    match k
    case Sensor => "sensor"
    case BinarySensor => "binary_sensor"
    case Switch => "switch"
    case Light => "light"
    case Climate => "climate"
    case Fan => "fan"
    case Cover => "cover"
    case Number => "number"
    case Select => "select"
    case TextSensor => "text_sensor"
    case Button => "button"
    case OtherKind => "other"
  }

  /** What a list-entities message says of one entity. */
  datatype Meta = Meta(key: u32, objectId: string, kind: Kind)

  datatype DeviceInfo = Undecodable | Info(usesPassword: bool)

  datatype Frame =
    | HelloRequest
    | HelloResponse
    | DeviceInfoRequest
    | DeviceInfoResponse(info: DeviceInfo)
    | ListEntitiesRequest
    | ListEntity(meta: Option<Meta>)      // None: the payload does not decode
    | ListEntitiesDone
    | SubscribeStates
    | PingRequest
    | PingResponse
    | StateFrame(key: u32, state: Option<State>)
    | Command(key: u32, desired: State)
    | DisconnectRequest
    | DisconnectResponse
    | Unknown
}
