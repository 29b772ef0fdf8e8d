/** Transport addresses: a host and a port, as Twisted passes `(host, port)` tuples around. */
module Net {

  datatype Address = Address(host: string, port: int)
}
