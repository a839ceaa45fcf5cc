/** Addresses as the plugin handles them. Go's `net.IP` is a byte slice; the
    plugin parses addresses with `net.ParseIP` and prints them with
    `IP.String()`, so both are kept abstract and bundled as a codec. */
module Net {
  import opened Wrappers

  type IP = seq<bv8>

  /** `parse` models `net.ParseIP` (None where Go returns nil);
      `format` models `IP.String()`. */
  datatype Codec = Codec(parse: string -> Option<IP>, format: IP -> string)

  /** An address that `parse` produced reads back from its printed form.
      Go's pair satisfies this: `net.ParseIP` always yields the 16-byte form,
      which `IP.String()` prints in a form `net.ParseIP` maps back to it. It
      does not hold for every byte slice: a 4-byte IPv4 address, as netlink
      hands back, prints like its 16-byte form, and nil prints "<nil>". */
  ghost predicate ReadsBack(c: Codec)
  {
    forall s, ip :: c.parse(s) == Some(ip) ==> c.parse(c.format(ip)) == Some(ip)
  }

  /** An address that some string parses to. */
  ghost predicate Parsed(c: Codec, ip: IP)
  {
    exists s :: c.parse(s) == Some(ip)
  }

  /** `IP.String()` of a possibly-nil address: Go prints "<nil>" for nil. */
  function Text(c: Codec, ip: Option<IP>): string
  {
    match ip
    case Some(a) => c.format(a)
    case None => "<nil>"
  }
}
