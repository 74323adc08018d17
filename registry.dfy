/** The registry as the two scripts receive it from `getRegistry()`: an ordered
    sequence of (token index, owner account) records. The RPC client that
    fetches it is not modelled; the result is taken as an input. */
module Registry {

  /** One registry record: a token index and the account that owns the token. */
  datatype Entry = Entry(index: nat, owner: string)

  /** The owner column of the registry, `registry.map((x) => x[1])`, in
      registry order and with nothing removed. */
  function Owners(registry: seq<Entry>): (owners: seq<string>)
    ensures |owners| == |registry|
    ensures forall i :: 0 <= i < |registry| ==> owners[i] == registry[i].owner
  {
    if registry == [] then [] else [registry[0].owner] + Owners(registry[1..])
  }
}
