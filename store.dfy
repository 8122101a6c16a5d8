/** The part of the etcd client library the data client talks to: the nodes
    and responses it receives, and the four calls it makes. The remote side
    is an oracle; the model only records which calls were made, in order. */
module EtcdStore {
  import opened Outcomes

  /** A node of the store's tree: a leaf holds a value, a directory holds
      child nodes; every write stamps the node with the store's index. */
  datatype Node = Node(key: string, value: string, nodes: seq<Node>, modifiedIndex: nat)

  /** The answer to a get, watch or set: the action that produced it, the
      node it concerns and the store's global index when it answered. */
  datatype Response = Response(action: string, node: Node, etcdIndex: nat)

  /** The answer to a raw delete: the HTTP status code and the error, if any. */
  datatype RawResponse = RawResponse(statusCode: int, err: Option<Error>)

  /** A call made to the store, with its arguments. */
  datatype Call =
    | GetRequest(key: string, sort: bool, recursive: bool)
    | WatchRequest(prefix: string, waitIndex: nat, recursive: bool)
    | SetRequest(key: string, value: string, ttl: nat)
    | DeleteRequest(key: string, recursive: bool, dir: bool)

  /** A connection to the store. What the store answers is fixed by the two
      oracles, which may depend on every call made before. */
  class Store {
    /** Every call made so far, oldest first. */
    var calls: seq<Call>
    const respond: (seq<Call>, Call) -> Result<Response>
    const respondRaw: (seq<Call>, Call) -> RawResponse

    constructor (respond: (seq<Call>, Call) -> Result<Response>, respondRaw: (seq<Call>, Call) -> RawResponse)
      ensures calls == [] && this.respond == respond && this.respondRaw == respondRaw
    {
      calls := [];
      this.respond := respond;
      this.respondRaw := respondRaw;
    }

    method Get(key: string, sort: bool, recursive: bool) returns (r: Result<Response>)
      modifies this
      ensures calls == old(calls) + [GetRequest(key, sort, recursive)]
      ensures r == respond(old(calls), GetRequest(key, sort, recursive))
    {
      r := respond(calls, GetRequest(key, sort, recursive));
      calls := calls + [GetRequest(key, sort, recursive)];
    }

    /** Blocks until a change at or under prefix with an index of at least
        waitIndex exists; the blocking itself is not modelled. */
    method Watch(prefix: string, waitIndex: nat, recursive: bool) returns (r: Result<Response>)
      modifies this
      ensures calls == old(calls) + [WatchRequest(prefix, waitIndex, recursive)]
      ensures r == respond(old(calls), WatchRequest(prefix, waitIndex, recursive))
    {
      r := respond(calls, WatchRequest(prefix, waitIndex, recursive));
      calls := calls + [WatchRequest(prefix, waitIndex, recursive)];
    }

    method Set(key: string, value: string, ttl: nat) returns (r: Result<Response>)
      modifies this
      ensures calls == old(calls) + [SetRequest(key, value, ttl)]
      ensures r == respond(old(calls), SetRequest(key, value, ttl))
    {
      r := respond(calls, SetRequest(key, value, ttl));
      calls := calls + [SetRequest(key, value, ttl)];
    }

    method RawDelete(key: string, recursive: bool, dir: bool) returns (r: RawResponse)
      modifies this
      ensures calls == old(calls) + [DeleteRequest(key, recursive, dir)]
      ensures r == respondRaw(old(calls), DeleteRequest(key, recursive, dir))
    {
      r := respondRaw(calls, DeleteRequest(key, recursive, dir));
      calls := calls + [DeleteRequest(key, recursive, dir)];
    }
  }
}
