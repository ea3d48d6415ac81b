/** The values the parted wrapper (pkg/partitioner/parted.go) works with. */
module PartedTypes {
  import opened GoStrings

  /** A partition as the wrapper handles it: offsets and sizes in sectors only.
      FileSystem only tells parted which partition type to record; a SizeS of 0
      asks for all the space left. */
  datatype Partition = Partition(Number: Int64, StartS: Uint, SizeS: Uint, PLabel: string, FileSystem: string)

  /** A pending flag change of the on-device partition `number`. */
  datatype PartFlag = PartFlag(flag: string, active: bool, number: Int64)

  /** The errors the wrapper returns. */
  datatype Error =
    | HeaderNotFound             // no line of the report has the header's shape
    | LastSectorNotFound         // GetLastSector found no header
    | SectorSizeNotFound         // GetSectorSize found no header
    | Conversion(kind: NumError) // strconv rejected a number
    | RunFailed(reason: string)  // the external runner reported a failure

  /** The fields of a PartedCall, as a value: what optionsBuilder reads, and
      what the queueing methods and WriteChanges change. */
  datatype Pending = Pending(
    dev: string,
    wipe: bool,
    tableLabel: string,
    parts: seq<Partition>,
    deletions: seq<Int64>,
    flags: seq<PartFlag>)
}
