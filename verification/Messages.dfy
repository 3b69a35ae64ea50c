/** The messages the client acts on, and the type ids they carry on the wire. */
module Messages {
  import opened Bytes

  datatype Domain =
    | Sensor | BinarySensor | Cover | Fan | Light | Switch | TextSensor | Camera
    | Climate | Number | Select | Siren | Lock | Button | MediaPlayer | WaterHeater

  const DOMAINS: seq<Domain> :=
    [Sensor, BinarySensor, Cover, Fan, Light, Switch, TextSensor, Camera,
     Climate, Number, Select, Siren, Lock, Button, MediaPlayer, WaterHeater]

  lemma DomainsIsComplete(d: Domain)
    ensures d in DOMAINS
  {
    match d
    case Sensor => assert DOMAINS[0] == d;
    case BinarySensor => assert DOMAINS[1] == d;
    case Cover => assert DOMAINS[2] == d;
    case Fan => assert DOMAINS[3] == d;
    case Light => assert DOMAINS[4] == d;
    case Switch => assert DOMAINS[5] == d;
    case TextSensor => assert DOMAINS[6] == d;
    case Camera => assert DOMAINS[7] == d;
    case Climate => assert DOMAINS[8] == d;
    case Number => assert DOMAINS[9] == d;
    case Select => assert DOMAINS[10] == d;
    case Siren => assert DOMAINS[11] == d;
    case Lock => assert DOMAINS[12] == d;
    case Button => assert DOMAINS[13] == d;
    case MediaPlayer => assert DOMAINS[14] == d;
    case WaterHeater => assert DOMAINS[15] == d;
  }

  /** Fields that are only copied are kept together in one string. A byte slice may be nil. */
  datatype Msg =
    | ListEntity(domain: Domain, key: uint32, name: string, details: string)
    | ListService(key: uint32, name: string)
    | ListDone
    | EntityState(domain: Domain, key: uint32, value: string, missing: bool)
    | CameraImage(key: uint32, data: Option<seq<byte>>, done: bool)
    | GattServices(address: nat, services: seq<string>)
    | GattServicesDone(address: nat)
    | GattError(address: nat, handle: uint32, code: int)
    | GattAnswer(msgType: uint32, address: nat, handle: uint32, bytes: seq<byte>)   // to a read, write or notify
    | Plain(msgType: uint32, body: string)   // every other known type

  const LIST_DONE_ID: uint32 := 19
  const GATT_SERVICES_ID: uint32 := 71
  const GATT_SERVICES_DONE_ID: uint32 := 72
  const GATT_READ_ID: uint32 := 74
  const GATT_NOTIFY_DATA_ID: uint32 := 79
  const GATT_ERROR_ID: uint32 := 82
  const GATT_WRITE_ID: uint32 := 83
  const GATT_NOTIFY_ID: uint32 := 84

  /** The types that carry a discovered entity or service. */
  const LIST_ENTITY_IDS: seq<uint32> := [12, 13, 14, 15, 16, 17, 18, 41, 43, 46, 49, 52, 55, 58, 61, 63, 132]

  /** The types that carry a state. */
  const STATE_IDS: seq<uint32> := [21, 22, 23, 24, 25, 26, 27, 44, 47, 50, 53, 56, 59, 64, 133]

  function ListId(d: Domain): uint32 {
    match d
    case BinarySensor => 12
    case Cover => 13
    case Fan => 14
    case Light => 15
    case Sensor => 16
    case Switch => 17
    case TextSensor => 18
    case Camera => 43
    case Climate => 46
    case Number => 49
    case Select => 52
    case Siren => 55
    case Lock => 58
    case Button => 61
    case MediaPlayer => 63
    case WaterHeater => 132
  }

  /** Buttons have no state message; the camera's is CameraImage. */
  function StateId(d: Domain): uint32
    requires d != Button && d != Camera
  {
    match d
    case BinarySensor => 21
    case Cover => 22
    case Fan => 23
    case Light => 24
    case Sensor => 25
    case Switch => 26
    case TextSensor => 27
    case Climate => 47
    case Number => 50
    case Select => 53
    case Siren => 56
    case Lock => 59
    case MediaPlayer => 64
    case WaterHeater => 133
  }

  const LIST_SERVICE_ID: uint32 := 41
  const CAMERA_IMAGE_ID: uint32 := 44

  /** The type id under which a message travels. */
  function TypeOf(m: Msg): uint32 {
    match m
    case ListEntity(d, _, _, _) => ListId(d)
    case ListService(_, _) => LIST_SERVICE_ID
    case ListDone => LIST_DONE_ID
    case EntityState(d, _, _, _) => if d == Button || d == Camera then 0 else StateId(d)
    case CameraImage(_, _, _) => CAMERA_IMAGE_ID
    case GattServices(_, _) => GATT_SERVICES_ID
    case GattServicesDone(_) => GATT_SERVICES_DONE_ID
    case GattError(_, _, _) => GATT_ERROR_ID
    case GattAnswer(t, _, _, _) => t
    case Plain(t, _) => t
  }

  /** The domains in the order of the two lists of type ids, and the single ids. */
  lemma TypeIds()
    ensures LIST_ENTITY_IDS ==
            [ListId(BinarySensor), ListId(Cover), ListId(Fan), ListId(Light), ListId(Sensor), ListId(Switch),
             ListId(TextSensor), LIST_SERVICE_ID, ListId(Camera), ListId(Climate), ListId(Number), ListId(Select),
             ListId(Siren), ListId(Lock), ListId(Button), ListId(MediaPlayer), ListId(WaterHeater)]
    ensures STATE_IDS ==
            [StateId(BinarySensor), StateId(Cover), StateId(Fan), StateId(Light), StateId(Sensor), StateId(Switch),
             StateId(TextSensor), CAMERA_IMAGE_ID, StateId(Climate), StateId(Number), StateId(Select),
             StateId(Siren), StateId(Lock), StateId(MediaPlayer), StateId(WaterHeater)]
    ensures [LIST_DONE_ID, GATT_SERVICES_ID, GATT_SERVICES_DONE_ID, GATT_READ_ID, GATT_NOTIFY_DATA_ID, GATT_ERROR_ID,
             GATT_WRITE_ID, GATT_NOTIFY_ID] == [19, 71, 72, 74, 79, 82, 83, 84]
  {}

  /** What is listed travels under a type that listings are registered for. */
  lemma ListingsAreListed(m: Msg)
    requires m.ListEntity? || m.ListService?
    ensures TypeOf(m) in LIST_ENTITY_IDS
  {
    if m.ListService? {
      assert LIST_ENTITY_IDS[7] == TypeOf(m);
    } else {
      ListIdIsListed(m.domain);
    }
  }

  lemma ListIdIsListed(d: Domain)
    ensures ListId(d) in LIST_ENTITY_IDS
  {
    match d
    case BinarySensor => assert LIST_ENTITY_IDS[0] == ListId(d);
    case Cover => assert LIST_ENTITY_IDS[1] == ListId(d);
    case Fan => assert LIST_ENTITY_IDS[2] == ListId(d);
    case Light => assert LIST_ENTITY_IDS[3] == ListId(d);
    case Sensor => assert LIST_ENTITY_IDS[4] == ListId(d);
    case Switch => assert LIST_ENTITY_IDS[5] == ListId(d);
    case TextSensor => assert LIST_ENTITY_IDS[6] == ListId(d);
    case Camera => assert LIST_ENTITY_IDS[8] == ListId(d);
    case Climate => assert LIST_ENTITY_IDS[9] == ListId(d);
    case Number => assert LIST_ENTITY_IDS[10] == ListId(d);
    case Select => assert LIST_ENTITY_IDS[11] == ListId(d);
    case Siren => assert LIST_ENTITY_IDS[12] == ListId(d);
    case Lock => assert LIST_ENTITY_IDS[13] == ListId(d);
    case Button => assert LIST_ENTITY_IDS[14] == ListId(d);
    case MediaPlayer => assert LIST_ENTITY_IDS[15] == ListId(d);
    case WaterHeater => assert LIST_ENTITY_IDS[16] == ListId(d);
  }

  /** Every state travels under a type that subscriptions are registered for. */
  lemma StatesAreSubscribed(m: Msg)
    requires Typed(m) && (m.EntityState? || m.CameraImage?)
    ensures TypeOf(m) in STATE_IDS
  {
    if m.CameraImage? {
      assert STATE_IDS[7] == TypeOf(m);
    } else {
      StateIdIsSubscribed(m.domain);
    }
  }

  lemma StateIdIsSubscribed(d: Domain)
    requires d != Button && d != Camera
    ensures StateId(d) in STATE_IDS
  {
    match d
    case BinarySensor => assert STATE_IDS[0] == StateId(d);
    case Cover => assert STATE_IDS[1] == StateId(d);
    case Fan => assert STATE_IDS[2] == StateId(d);
    case Light => assert STATE_IDS[3] == StateId(d);
    case Sensor => assert STATE_IDS[4] == StateId(d);
    case Switch => assert STATE_IDS[5] == StateId(d);
    case TextSensor => assert STATE_IDS[6] == StateId(d);
    case Climate => assert STATE_IDS[8] == StateId(d);
    case Number => assert STATE_IDS[9] == StateId(d);
    case Select => assert STATE_IDS[10] == StateId(d);
    case Siren => assert STATE_IDS[11] == StateId(d);
    case Lock => assert STATE_IDS[12] == StateId(d);
    case MediaPlayer => assert STATE_IDS[13] == StateId(d);
    case WaterHeater => assert STATE_IDS[14] == StateId(d);
  }

  const GATT_ANSWER_IDS: set<uint32> := {GATT_READ_ID, GATT_WRITE_ID, GATT_NOTIFY_ID}

  /** The factory of a type builds messages of that type only, so other messages have other type ids. */
  predicate Typed(m: Msg) {
    && (m.Plain? ==>
          && m.msgType !in LIST_ENTITY_IDS && m.msgType !in STATE_IDS && m.msgType !in GATT_ANSWER_IDS
          && m.msgType !in {LIST_DONE_ID, GATT_SERVICES_ID, GATT_SERVICES_DONE_ID, GATT_ERROR_ID})
    && (m.GattAnswer? ==> m.msgType in GATT_ANSWER_IDS)
    && (m.EntityState? ==> m.domain != Button && m.domain != Camera)
  }

  /** A message as it is read from the wire, where a field without bytes is a missing field. */
  predicate Canonical(m: Msg) {
    Typed(m) && (m.CameraImage? ==> m.data != Some([]))
  }
}
