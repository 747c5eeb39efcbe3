/** One nft table as the plan sees it, the commands of a script, and what the kernel does with them. */
module NftTables {
  import opened Seqs

  /** A user chain has no header; a base chain is hooked in at a priority and has a policy. */
  datatype Header = User | Base(hook: string, priority: string, policy: string)

  datatype Chain = Chain(header: Header, rules: seq<string>)

  /** A named set; `dynamic` among its flags makes its elements runtime state. */
  datatype NftSet = NftSet(kind: string, flags: seq<string>, elements: seq<string>) {
    predicate IsDynamic() {
      "dynamic" in flags
    }
  }

  datatype Table = Table(chains: map<string, Chain>, sets: map<string, NftSet>, objects: set<string>)

  datatype Cmd =
    | AddTable
    | DeleteTable
    | AddObject(object_: string)
    | AddSet(set_: string, kind: string, flags: seq<string>)
    | AddElements(set_: string, elements: seq<string>)
    | DeleteElements(set_: string, elements: seq<string>)
    | AddChain(chain: string, header: Header)
    | DeleteChain(chain: string)
    | FlushChain(chain: string)
    | AddRule(chain: string, rule: string)

  /** A set in the kernel has no order. */
  datatype LiveSet = LiveSet(kind: string, flags: seq<string>, elements: set<string>)

  datatype Kernel = Kernel(chains: map<string, Chain>, sets: map<string, LiveSet>, objects: set<string>)

  function Members(elements: seq<string>): set<string> {
    set e | e in elements
  }

  function Live(s: NftSet): LiveSet {
    LiveSet(s.kind, s.flags, Members(s.elements))
  }

  function Running(t: Table): Kernel {
    Kernel(t.chains, map name | name in t.sets :: Live(t.sets[name]), t.objects)
  }

  /** Declaring a chain that exists: only a base chain's policy may change. `None` aborts the transaction. */
  function Redeclare(chain: Chain, header: Header): Option<Chain> {
    if header.User? then Some(chain)
    else if chain.header.Base? && chain.header.hook == header.hook && chain.header.priority == header.priority then
      Some(chain.(header := header))
    else None
  }

  function Exec(k: Kernel, cmd: Cmd): Option<Kernel> {
    match cmd
    case AddTable => Some(k)
    case DeleteTable => Some(Kernel(map[], map[], {}))
    case AddObject(o) => Some(k.(objects := k.objects + {o}))
    case AddSet(s, kind, flags) =>
      if s in k.sets then Some(k) else Some(k.(sets := k.sets[s := LiveSet(kind, flags, {})]))
    case AddElements(s, es) =>
      if s !in k.sets then None
      else Some(k.(sets := k.sets[s := k.sets[s].(elements := k.sets[s].elements + Members(es))]))
    case DeleteElements(s, es) =>
      if s !in k.sets || !(Members(es) <= k.sets[s].elements) then None
      else Some(k.(sets := k.sets[s := k.sets[s].(elements := k.sets[s].elements - Members(es))]))
    case AddChain(c, header) =>
      if c !in k.chains then Some(k.(chains := k.chains[c := Chain(header, [])]))
      else
        var chain := Redeclare(k.chains[c], header);
        if chain.None? then None else Some(k.(chains := k.chains[c := chain.value]))
    case DeleteChain(c) => if c !in k.chains then None else Some(k.(chains := k.chains - {c}))
    case FlushChain(c) =>
      if c !in k.chains then None else Some(k.(chains := k.chains[c := k.chains[c].(rules := [])]))
    case AddRule(c, rule) =>
      if c !in k.chains then None
      else Some(k.(chains := k.chains[c := k.chains[c].(rules := k.chains[c].rules + [rule])]))
  }

  /** A script is one transaction: the first command that fails undoes all of it. */
  function ExecAll(k: Kernel, cmds: seq<Cmd>): Option<Kernel>
    decreases |cmds|
  {
    if cmds == [] then Some(k)
    else
      var next := Exec(k, cmds[0]);
      if next.None? then None else ExecAll(next.value, cmds[1..])
  }

  lemma {:induction false} ExecAppend(k: Kernel, a: seq<Cmd>, b: seq<Cmd>)
    ensures ExecAll(k, a + b)
            == var mid := ExecAll(k, a); if mid.None? then None else ExecAll(mid.value, b)
    decreases |a|
  {
    if a == [] {
      assert a + b == b;
    } else {
      assert (a + b)[1..] == a[1..] + b;
      var next := Exec(k, a[0]);
      if next.Some? { ExecAppend(next.value, a[1..], b); }
    }
  }
}
