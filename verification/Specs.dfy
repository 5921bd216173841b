/** src/rosy/specs.py */
module Specs {
  datatype NodeId = NodeId(name: string, hostname: string, uuid: nat)

  datatype MeshNodeSpec = MeshNodeSpec(
    id: NodeId,
    connectionSpecs: seq<string>,
    topics: set<string>,
    services: set<string>)
}
