/**
 * The records of convert.ts: an input row (`KnxEntry`, of which only the
 * `description` and `address` columns are read), the per-device accumulator
 * (`YamlEntry`), and the two output shapes the projection builds.
 */
module Entries {
  import opened Wrappers

  /** One row of the group-address export. */
  datatype Row = Row(description: string, address: string)

  /** The optional address fields of `YamlEntry`, one constructor per field. */
  datatype Field =
    | Address | StateAddress | BrightnessAddress | BrightnessStateAddress
    | TemperatureAddress | TargetTemperatureStateAddress
    | SetpointShiftAddress | SetpointShiftStateAddress
    | OperationModeAddress | OperationModeStateAddress
    | OperationModeFrostProtectionAddress | OperationModeNightAddress | OperationModeComfortAddress
  {
    /** The nine fields a climate record carries; the other four belong to light, fan and switch records. */
    predicate IsClimate()
    {
      !(Address? || StateAddress? || BrightnessAddress? || BrightnessStateAddress?)
    }
  }

  /** `YamlEntry`: a name and thirteen optional addresses (`undefined` is None). */
  datatype YamlEntry = YamlEntry(
    name: string,
    address: Option<string>,
    stateAddress: Option<string>,
    brightnessAddress: Option<string>,
    brightnessStateAddress: Option<string>,
    temperatureAddress: Option<string>,
    targetTemperatureStateAddress: Option<string>,
    setpointShiftAddress: Option<string>,
    setpointShiftStateAddress: Option<string>,
    operationModeAddress: Option<string>,
    operationModeStateAddress: Option<string>,
    operationModeFrostProtectionAddress: Option<string>,
    operationModeNightAddress: Option<string>,
    operationModeComfortAddress: Option<string>)
  {
    /** Reads the field f. */
    function Get(f: Field): Option<string>
    {
      match f
      case Address => address
      case StateAddress => stateAddress
      case BrightnessAddress => brightnessAddress
      case BrightnessStateAddress => brightnessStateAddress
      case TemperatureAddress => temperatureAddress
      case TargetTemperatureStateAddress => targetTemperatureStateAddress
      case SetpointShiftAddress => setpointShiftAddress
      case SetpointShiftStateAddress => setpointShiftStateAddress
      case OperationModeAddress => operationModeAddress
      case OperationModeStateAddress => operationModeStateAddress
      case OperationModeFrostProtectionAddress => operationModeFrostProtectionAddress
      case OperationModeNightAddress => operationModeNightAddress
      case OperationModeComfortAddress => operationModeComfortAddress
    }

    /** `entry.<f> = v`: overwrites field f and nothing else. */
    function Set(f: Field, v: string): (r: YamlEntry)
      ensures r.name == name
      ensures r.Get(f) == Some(v)
      ensures forall g :: g != f ==> r.Get(g) == Get(g)
    {
      match f
      case Address => this.(address := Some(v))
      case StateAddress => this.(stateAddress := Some(v))
      case BrightnessAddress => this.(brightnessAddress := Some(v))
      case BrightnessStateAddress => this.(brightnessStateAddress := Some(v))
      case TemperatureAddress => this.(temperatureAddress := Some(v))
      case TargetTemperatureStateAddress => this.(targetTemperatureStateAddress := Some(v))
      case SetpointShiftAddress => this.(setpointShiftAddress := Some(v))
      case SetpointShiftStateAddress => this.(setpointShiftStateAddress := Some(v))
      case OperationModeAddress => this.(operationModeAddress := Some(v))
      case OperationModeStateAddress => this.(operationModeStateAddress := Some(v))
      case OperationModeFrostProtectionAddress => this.(operationModeFrostProtectionAddress := Some(v))
      case OperationModeNightAddress => this.(operationModeNightAddress := Some(v))
      case OperationModeComfortAddress => this.(operationModeComfortAddress := Some(v))
    }
  }

  /** `{ name: key }`: a fresh accumulator with every address absent. */
  function NewEntry(name: string): (e: YamlEntry)
    ensures e.name == name
    ensures forall f :: e.Get(f) == None
  {
    YamlEntry(name, None, None, None, None, None, None, None, None, None, None, None, None, None)
  }

  /** Two entries with the same name and the same value in every field are equal. */
  lemma EntryExtensionality(e: YamlEntry, e': YamlEntry)
    requires e.name == e'.name
    requires forall f :: e.Get(f) == e'.Get(f)
    ensures e == e'
  {
    assert e.Get(Address) == e'.Get(Address);
    assert e.Get(StateAddress) == e'.Get(StateAddress);
    assert e.Get(BrightnessAddress) == e'.Get(BrightnessAddress);
    assert e.Get(BrightnessStateAddress) == e'.Get(BrightnessStateAddress);
    assert e.Get(TemperatureAddress) == e'.Get(TemperatureAddress);
    assert e.Get(TargetTemperatureStateAddress) == e'.Get(TargetTemperatureStateAddress);
    assert e.Get(SetpointShiftAddress) == e'.Get(SetpointShiftAddress);
    assert e.Get(SetpointShiftStateAddress) == e'.Get(SetpointShiftStateAddress);
    assert e.Get(OperationModeAddress) == e'.Get(OperationModeAddress);
    assert e.Get(OperationModeStateAddress) == e'.Get(OperationModeStateAddress);
    assert e.Get(OperationModeFrostProtectionAddress) == e'.Get(OperationModeFrostProtectionAddress);
    assert e.Get(OperationModeNightAddress) == e'.Get(OperationModeNightAddress);
    assert e.Get(OperationModeComfortAddress) == e'.Get(OperationModeComfortAddress);
  }

  /** The output shape of a light, fan or switch record. */
  datatype DeviceRecord = DeviceRecord(
    name: string,
    address: Option<string>,
    stateAddress: Option<string>,
    brightnessAddress: Option<string>,
    brightnessStateAddress: Option<string>)
  {
    function Get(f: Field): Option<string>
      requires !f.IsClimate()
    {
      match f
      case Address => address
      case StateAddress => stateAddress
      case BrightnessAddress => brightnessAddress
      case BrightnessStateAddress => brightnessStateAddress
    }
  }

  /** The output shape of a climate record. */
  datatype ClimateRecord = ClimateRecord(
    name: string,
    temperatureAddress: Option<string>,
    targetTemperatureStateAddress: Option<string>,
    setpointShiftAddress: Option<string>,
    setpointShiftStateAddress: Option<string>,
    operationModeAddress: Option<string>,
    operationModeStateAddress: Option<string>,
    operationModeFrostProtectionAddress: Option<string>,
    operationModeNightAddress: Option<string>,
    operationModeComfortAddress: Option<string>)
  {
    function Get(f: Field): Option<string>
      requires f.IsClimate()
    {
      match f
      case TemperatureAddress => temperatureAddress
      case TargetTemperatureStateAddress => targetTemperatureStateAddress
      case SetpointShiftAddress => setpointShiftAddress
      case SetpointShiftStateAddress => setpointShiftStateAddress
      case OperationModeAddress => operationModeAddress
      case OperationModeStateAddress => operationModeStateAddress
      case OperationModeFrostProtectionAddress => operationModeFrostProtectionAddress
      case OperationModeNightAddress => operationModeNightAddress
      case OperationModeComfortAddress => operationModeComfortAddress
    }
  }

  /** The `light`/`fan`/`switch` projection: the name and the four device fields of e, unchanged. */
  function ToDevice(e: YamlEntry): (r: DeviceRecord)
    ensures r.name == e.name
    ensures forall f: Field :: !f.IsClimate() ==> r.Get(f) == e.Get(f)
  {
    DeviceRecord(e.name, e.address, e.stateAddress, e.brightnessAddress, e.brightnessStateAddress)
  }

  /** The `climate` projection: the name and the nine climate fields of e, unchanged. */
  function ToClimate(e: YamlEntry): (r: ClimateRecord)
    ensures r.name == e.name
    ensures forall f: Field :: f.IsClimate() ==> r.Get(f) == e.Get(f)
  {
    ClimateRecord(e.name, e.temperatureAddress, e.targetTemperatureStateAddress,
                  e.setpointShiftAddress, e.setpointShiftStateAddress,
                  e.operationModeAddress, e.operationModeStateAddress,
                  e.operationModeFrostProtectionAddress, e.operationModeNightAddress,
                  e.operationModeComfortAddress)
  }
}
