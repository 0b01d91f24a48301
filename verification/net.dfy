/**
 * The value types the partial URLs are built from (HostAddress, Port,
 * Protocol and Path of the ao-net-types library), reduced to what the
 * partial-URL classes use: equality, a total order, and a rendering.
 */
module Net {
  import opened Strings
  import opened Collections

  /** A host address in canonical form; `name` is its bracketed rendering (`toBracketedString`). */
  datatype HostAddress = HostAddress(name: string)

  datatype Protocol = TCP | UDP | SCTP

  /** The range `Port.valueOf` accepts. */
  type PortNumber = n: int | 1 <= n <= 65535 witness 80

  datatype Port = Port(number: PortNumber, protocol: Protocol)

  /** A validated path: it always starts with a slash. */
  type Path = s: string | |s| > 0 && s[0] == '/' witness "/"

  /** `Path.ROOT`. */
  const ROOT: Path := "/"

  function CompareHosts(a: HostAddress, b: HostAddress): int
  {
    CompareStrings(a.name, b.name)
  }

  function ProtocolOrdinal(p: Protocol): nat
  {
    match p
    case TCP => 0
    case UDP => 1
    case SCTP => 2
  }

  /** Ports order by number, then by protocol. */
  function ComparePorts(a: Port, b: Port): int
  {
    if a.number < b.number then -1
    else if b.number < a.number then 1
    else if ProtocolOrdinal(a.protocol) < ProtocolOrdinal(b.protocol) then -1
    else if ProtocolOrdinal(b.protocol) < ProtocolOrdinal(a.protocol) then 1
    else 0
  }

  /** `Path.compareTo`: the order of the path strings. */
  function ComparePaths(a: Path, b: Path): int
  {
    CompareStrings(a, b)
  }

  lemma StringOrder()
    ensures TotalOrder(CompareStrings)
  {
    forall x, y
      ensures CompareStrings(x, y) == 0 <==> x == y
      ensures CompareStrings(x, y) < 0 <==> CompareStrings(y, x) > 0
    {
      CompareStringsZero(x, y);
      CompareStringsFlip(x, y);
    }
    forall x, y, z | CompareStrings(x, y) < 0 && CompareStrings(y, z) < 0
      ensures CompareStrings(x, z) < 0
    {
      CompareStringsTrans(x, y, z);
    }
  }

  lemma HostOrder()
    ensures TotalOrder(CompareHosts)
  {
    StringOrder();
  }

  lemma PortOrder()
    ensures TotalOrder(ComparePorts)
  {
  }

  lemma PathOrder()
    ensures TotalOrder(ComparePaths)
  {
    StringOrder();
  }
}
