/** The init-system enumeration and its name table (uservice.h). */
module InitSystems {

  /** `enum init_system`, sentinels included, in declaration order. */
  datatype InitSystem = Systemd | OpenRC | NumberOfSupportedInitSystems | UnsupportedInitSystem

  /** Number of members of the C enumeration. */
  const EnumSize: nat := 4

  /** Value of `NUMBER_OF_SUPPORTED_INIT_SYSTEMS`: the supported systems are the
      indices below it. */
  const SupportedCount: nat := 2

  /** Every row of `init_system_name` is a `char[16]`. */
  const NameBufferSize: nat := 16

  /** `init_system_name`, indexed by the enum's integer value. */
  const InitSystemNames: seq<string> := ["systemd\n", "openRC\n", "INVALID\n", "INVALID\n"]

  /** The integer value C gives each enumerator. */
  function Ordinal(s: InitSystem): (n: nat)
    ensures n < EnumSize
    ensures n < SupportedCount <==> s == Systemd || s == OpenRC
  {
    match s
    case Systemd => 0
    case OpenRC => 1
    case NumberOfSupportedInitSystems => 2
    case UnsupportedInitSystem => 3
  }

  /** The enumerator with a given integer value; the inverse of `Ordinal`. */
  function FromOrdinal(n: nat): (s: InitSystem)
    requires n < EnumSize
    ensures Ordinal(s) == n
  {
    if n == 0 then Systemd
    else if n == 1 then OpenRC
    else if n == 2 then NumberOfSupportedInitSystems
    else UnsupportedInitSystem
  }

  /** The systems the program can drive: those whose index lies below
      `NUMBER_OF_SUPPORTED_INIT_SYSTEMS`. */
  predicate IsSupported(s: InitSystem)
  {
    Ordinal(s) < SupportedCount
  }

  /** The enumerators keep their declared order, and the sentinel
      `NUMBER_OF_SUPPORTED_INIT_SYSTEMS` equals the count of supported systems,
      so both sentinels fall outside the supported index range. */
  lemma EnumLayout()
    ensures Ordinal(Systemd) == 0 && Ordinal(OpenRC) == 1
    ensures Ordinal(NumberOfSupportedInitSystems) == SupportedCount == 2
    ensures Ordinal(UnsupportedInitSystem) == 3
    ensures !IsSupported(NumberOfSupportedInitSystems) && !IsSupported(UnsupportedInitSystem)
  {
  }

  /** The name-table row of a system. Every row fits its 16-byte buffer with
      room for the terminator, holds no NUL, and ends in exactly one newline. */
  function Name(s: InitSystem): (name: string)
    ensures |name| < NameBufferSize
    ensures 0 < |name| && name[|name| - 1] == '\n'
    ensures forall k :: 0 <= k < |name| - 1 ==> name[k] != '\n'
    ensures forall k :: 0 <= k < |name| ==> name[k] != '\0'
  {
    match s
    case Systemd => InitSystemNames[0]
    case OpenRC => InitSystemNames[1]
    case NumberOfSupportedInitSystems => InitSystemNames[2]
    case UnsupportedInitSystem => InitSystemNames[3]
  }

  /** `Name` is the table read at the enumerator's index. */
  lemma NameIsTableRow(s: InitSystem)
    ensures Name(s) == InitSystemNames[Ordinal(s)]
  {
  }

  /** The supported names are case-sensitive, newline-terminated and pairwise
      distinct, so a configuration line can match at most one system; the
      sentinel rows both read "INVALID\n". */
  lemma NamesOfSupportedSystems(a: InitSystem, b: InitSystem)
    ensures a == Systemd ==> Name(a) == "systemd\n"
    ensures a == OpenRC ==> Name(a) == "openRC\n"
    ensures !IsSupported(a) ==> Name(a) == "INVALID\n"
    ensures IsSupported(a) && IsSupported(b) && Name(a) == Name(b) ==> a == b
  {
    if IsSupported(a) && IsSupported(b) && a != b {
      assert |Name(a)| != |Name(b)|;
    }
  }
}
