// The repository's own sequential specification of the store, as a checker runs it: one key
// at a time, each operation judged by its input and output.

module KvModel {
  import opened Collections
  import opened KvTypes

  // op 0 is a get and op 1 a put.
  datatype KvInput = KvInput(op: nat, key: string, value: Value, version: nat)

  datatype KvOutput = KvOutput(value: Value, version: nat, err: Err)

  datatype KvState = KvState(value: Value, version: nat)

  const InitState := KvState(NoValue, 0)

  // The next state, or None when the output is not one the model allows.
  function Step(st: KvState, inp: KvInput, out: KvOutput): Option<KvState> {
    if inp.op == 0 then
      if out.value == st.value then Some(st) else None
    else if inp.op == 1 then
      if st.version == inp.version then
        if out.err == OK || out.err == ErrMaybe then Some(KvState(inp.value, st.version + 1)) else None
      else
        if out.err == ErrVersion || out.err == ErrMaybe then Some(st) else None
    else None
  }

  datatype Operation = Operation(input: KvInput, output: KvOutput)

  // The state after a sequence of operations on one key, if the model accepts them all.
  function Accept(h: seq<Operation>): Option<KvState> {
    if h == [] then Some(InitState)
    else
      match Accept(h[..|h| - 1])
      case None => None
      case Some(st) => Step(st, h[|h| - 1].input, h[|h| - 1].output)
  }
}
