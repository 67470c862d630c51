/** The topology message of internal/grpcapi/server.go: shardToProto and buildTopology. */
module Topology {
  import opened Common
  import opened Fsm
  import opened Table

  /** NULL columns travel as "". */
  datatype ProtoShard = ProtoShard(
    id: int, uuid: string, role: Role, bucketId: string, state: State, dsn: string, advertiseUrl: string)

  datatype TopologyMessage = TopologyMessage(version: int, config: Option<ClusterConfig>, shards: seq<ProtoShard>)

  function OrEmpty(s: Option<string>): string {
    if s.Some? then s.value else ""
  }

  function ToProto(r: Shard): ProtoShard {
    ProtoShard(r.id, r.uuid, r.role, OrEmpty(r.bucket), r.state, r.dsn, OrEmpty(r.advertiseUrl))
  }

  function ToProtos(rows: seq<Shard>): (out: seq<ProtoShard>)
    ensures |out| == |rows|
    ensures forall i :: 0 <= i < |rows| ==> out[i] == ToProto(rows[i])
  {
    if |rows| == 0 then [] else ToProtos(rows[..|rows| - 1]) + [ToProto(rows[|rows| - 1])]
  }

  /** The message built from one state of the tables. */
  function TopologyOf(db: Db): TopologyMessage {
    TopologyMessage(Version(db), if db.config.Some? then Some(db.config.value.config) else None, ToProtos(db.shards))
  }

  /** The message depends on the routes only, so equal versions after bootstrap mean equal messages. */
  lemma ProtosFollowRoutes(a: Db, b: Db)
    requires Routes(a) == Routes(b)
    ensures ToProtos(a.shards) == ToProtos(b.shards)
  {
    forall i | 0 <= i < |a.shards|
      ensures ToProtos(a.shards)[i] == ToProtos(b.shards)[i]
    {
      assert Routes(a)[i] == Routes(b)[i];
    }
  }

  /** buildTopology when nothing intervenes between its reads. */
  method BuildTopology(db: Db) returns (topo: TopologyMessage)
    ensures topo == TopologyOf(db)
  {
    var shards: seq<ProtoShard> := [];
    for i := 0 to |db.shards|
      invariant shards == ToProtos(db.shards[..i])
    {
      assert db.shards[..i + 1][..i] == db.shards[..i];
      shards := shards + [ToProto(db.shards[i])];
    }
    assert db.shards[..|db.shards|] == db.shards;
    topo := TopologyMessage(Version(db), if db.config.Some? then Some(db.config.value.config) else None, shards);
  }
}
