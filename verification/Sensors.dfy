/** Accelerators as enumeration reports them; sysfs readings are plain data. */
module Sensors {
  import opened Text

  datatype Vendor = Amd | Nvidia | Intel | Other {
    function Slug(): string {
      match this
      case Amd => "amd"
      case Nvidia => "nvidia"
      case Intel => "intel"
      case Other => "other"
    }
  }

  datatype MemoryKind = Dedicated | Unified | Shared | Unknown {
    function Slug(): string {
      match this
      case Dedicated => "dedicated"
      case Unified => "unified"
      case Shared => "shared"
      case Unknown => "unknown"
    }
  }

  datatype AcceleratorId = AcceleratorId(vendor: Vendor, drmIndex: nat, pciAddr: string)

  /** `peers` is the xGMI peer list read from sysfs, `parent` the parent directory of the device
      and `sriov` its total and configured virtual functions, where the files exist. */
  datatype Accelerator = Accelerator(
    id: AcceleratorId,
    model: string,
    memoryKind: MemoryKind,
    fabricDomain: Option<string>,
    peers: seq<string>,
    parent: Option<string>,
    sriov: Option<(nat, nat)>)
}
