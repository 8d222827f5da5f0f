/**
 * The coordination service as the client sees it through the `zookeeper`
 * crate. The crate is foreign code, so a connected session is modelled as a
 * record of the calls the client makes, each an uninterpreted function of
 * its arguments; nothing is assumed about how they relate to each other.
 */
module Namespace {
  import opened Results
  import opened Numeric

  newtype byte = x: int | 0 <= x < 256

  /** `zookeeper::Stat`: the metadata the service keeps per node. */
  datatype Stat = Stat(
    czxid: i64,
    mzxid: i64,
    ctime: i64,
    mtime: i64,
    version: i32,
    cversion: i32,
    aversion: i32,
    ephemeralOwner: i64,
    dataLength: i32,
    numChildren: i32,
    pzxid: i64)

  /** What `get_data` returns: the stored bytes and the node's metadata. */
  datatype NodeData = NodeData(data: seq<byte>, stat: Stat)

  /** A connected session. */
  datatype Service = Service(
    /** `ZooKeeper::get_children(path, false)`: the bare names of the direct children. */
    children: string -> Result<seq<string>>,
    /** `ZooKeeperExt::get_children_recursive(path)`. */
    childrenRecursive: string -> Result<seq<string>>,
    /** `ZooKeeper::get_data(path, watch)`. */
    getData: (string, bool) -> Result<NodeData>)

  /** `std::str::from_utf8`: None when the bytes are not valid UTF-8. */
  type Utf8Decoder = seq<byte> -> Option<string>
}
