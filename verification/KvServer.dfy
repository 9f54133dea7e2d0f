// The key/value server: its data as a value, the two request handlers, and the server
// object that updates its two maps in place.

module KvTypes {

  // One tuple of the value that appending clients share.
  datatype Entry = Entry(id: nat, n: nat)

  // Values are strings; those the test clients store are JSON texts, kept here decoded.
  datatype Value = Text(s: string) | Entries(es: seq<Entry>) | Stamp(id: nat, v: nat)

  datatype Err = OK | ErrNoKey | ErrVersion | ErrMaybe

  datatype Input = Get(key: string) | Put(key: string, value: Value, version: nat)

  // A put reply carries only its error; value and version keep their zero values.
  datatype Reply = Reply(value: Value, version: nat, err: Err)

  // What a test client counts: its puts that were OK, and those that were ErrMaybe.
  datatype ClntRes = ClntRes(nok: nat, nmaybe: nat)

  const NoValue := Text("")

  // The server's two maps, and the handlers on them.
  datatype Server = Server(data: map<string, Value>, dataVersion: map<string, nat>) {

    ghost predicate Valid() {
      && data.Keys == dataVersion.Keys
      && forall k :: k in dataVersion ==> dataVersion[k] >= 1
    }

    // An absent key counts as version 0.
    function Version(key: string): nat {
      if key in dataVersion then dataVersion[key] else 0
    }

    function Value(key: string): Value {
      if key in data then data[key] else NoValue
    }

    // A put applies exactly when its version is the key's version.
    predicate Applies(input: Input) {
      input.Put? && Version(input.key) == input.version
    }

    function Handle(input: Input): (r: (Server, Reply))
      ensures Valid() ==> r.0.Valid()
      ensures input.Put? && r.1.err == OK <==> Applies(input)
      ensures !Applies(input) ==> r.0 == this
      ensures Applies(input) ==>
        r.0.Version(input.key) == input.version + 1 && r.0.Value(input.key) == input.value
    {
      match input
      case Get(key) =>
        if key in data then (this, Reply(data[key], Version(key), OK)) else (this, Reply(NoValue, 0, ErrNoKey))
      case Put(key, value, version) =>
        if key in dataVersion && dataVersion[key] != version then (this, Reply(NoValue, 0, ErrVersion))
        else if key !in dataVersion && version != 0 then (this, Reply(NoValue, 0, ErrNoKey))
        else (Server(data[key := value], dataVersion[key := Version(key) + 1]), Reply(NoValue, 0, OK))
    }
  }

  const EmptyServer := Server(map[], map[])

  // What the Clerk hands its caller: ErrVersion on a resend becomes ErrMaybe.
  function ClerkReply(first: bool, input: Input, reply: Reply): Reply {
    if input.Put? && !first && reply.err == ErrVersion then reply.(err := ErrMaybe) else reply
  }
}

module KvServer {
  import opened KvTypes

  class KVServer {
    var data: map<string, Value>
    var dataVersion: map<string, nat>

    ghost function State(): Server
      reads this
    {
      Server(data, dataVersion)
    }

    ghost predicate Valid()
      reads this
    {
      State().Valid()
    }

    constructor ()
      ensures Valid() && State() == EmptyServer
    {
      data := map[];
      dataVersion := map[];
    }

    method Get(key: string) returns (reply: Reply)
      requires Valid()
      ensures reply == State().Handle(Input.Get(key)).1
      ensures reply.err == ErrNoKey <==> key !in data
      ensures reply.value == State().Value(key) && reply.version == State().Version(key)
    {
      if key in data {
        return Reply(data[key], dataVersion[key], OK);
      }
      return Reply(NoValue, 0, ErrNoKey);
    }

    method Put(key: string, value: Value, version: nat) returns (reply: Reply)
      requires Valid()
      modifies this
      ensures Valid()
      ensures (State(), reply) == old(State().Handle(Input.Put(key, value, version)))
      ensures reply.err == OK <==> old(State().Version(key)) == version
      ensures reply.err == ErrNoKey <==> key !in old(data) && version != 0
      ensures reply.err == ErrVersion <==> key in old(data) && old(State().Version(key)) != version
      ensures reply.err == OK ==> data == old(data)[key := value] && dataVersion == old(dataVersion)[key := version + 1]
      ensures reply.err != OK ==> unchanged(this)
    {
      if key in dataVersion {
        if dataVersion[key] != version {
          return Reply(NoValue, 0, ErrVersion);
        }
      } else {
        if version != 0 {
          return Reply(NoValue, 0, ErrNoKey);
        }
      }
      data := data[key := value];
      dataVersion := dataVersion[key := (if key in dataVersion then dataVersion[key] else 0) + 1];
      return Reply(NoValue, 0, OK);
    }
  }
}
