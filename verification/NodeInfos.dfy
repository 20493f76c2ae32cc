/** struct node_info (src/libdht.h): an id and the address it is reached at. */
module NodeInfos {
  import opened Ids

  type Word = x: int | 0 <= x < 0x1_0000_0000 witness 0
  type Half = x: int | 0 <= x < 0x1_0000 witness 0

  datatype NodeInfo = NodeInfo(id: Id, ip: Word, port: Half)

  /** What memset leaves in a slot. */
  const EMPTY := NodeInfo(0, 0, 0)

  /** An address is given in full or not at all. */
  predicate WellFormed(n: NodeInfo) {
    n.ip == 0 <==> n.port == 0
  }

  predicate Live(n: NodeInfo) {
    n.ip != 0 && n.port != 0
  }
}
