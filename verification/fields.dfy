/**
 * What a partial URL is matched against and what it produces: the fields of
 * a request (URLFieldSource) and the java.net.URL that `toURL` builds.
 */
module Fields {
  import opened Wrappers
  import opened Strings
  import opened Net

  /**
   * The fields of one request.  The scheme is as the request gave it (not
   * yet lower-cased); the path is absent for a request without one.
   */
  datatype FieldSource = FieldSource(scheme: string, host: HostAddress, port: Port, contextPath: Path, path: Option<Path>)

  /** A java.net.URL built from its parts; `port` is -1 for the protocol's default port. */
  datatype URL = URL(protocol: string, host: string, port: int, file: string)

  /** `new URL(protocol, host.toBracketedString(), port, file)`; the constructor lower-cases the protocol. */
  function NewURL(protocol: string, host: HostAddress, port: int, file: string): URL
  {
    URL(ToLower(protocol), host.name, port, file)
  }

  /** `URL.toString()`: `protocol:` then `//authority` when there is one, then the file. */
  function URLToString(u: URL): string
  {
    var authority := if u.port < 0 then u.host else u.host + ":" + NatToString(u.port);
    u.protocol + ":" + (if |authority| > 0 then "//" + authority else "") + u.file
  }

  /** The port number a URL leaves out: 80 for http and 443 for https, the scheme compared ignoring case. */
  predicate IsDefaultPort(scheme: string, port: int)
  {
    (EqualsIgnoreCase("http", scheme) && port == 80) || (EqualsIgnoreCase("https", scheme) && port == 443)
  }
}
