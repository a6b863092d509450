/** What several stages know of a packet. */
module Packet {
  /** Which way a packet goes, as far as the programs could tell. */
  datatype Direction = UnknownDirection | Tx | Rx
}
