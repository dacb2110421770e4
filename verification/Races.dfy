/** Races as the detector reports them and as the collector keeps them. */
module Races {
  import opened Wrappers

  /** The length of a call stack array. */
  const MAX_STACK: nat := 16

  /** One access: the stack array, how much of it is used, and the memory accessed. */
  datatype Access = Access(trace: seq<bv64>, stackSize: nat, memory: nat)

  type AccessEntry = a: Access | |a.trace| == MAX_STACK && a.stackSize <= MAX_STACK
    witness Access(seq(MAX_STACK, _ => 0), 0, 0)

  datatype Race = Race(first: AccessEntry, second: AccessEntry)

  /** Symbol names found for the accessed address and for the two stacks. */
  datatype Resolution = Resolution(address: string, first: seq<string>, second: seq<string>)

  datatype Decorated = Decorated(race: Race, elapsed: nat, resolved: Option<Resolution>) {
    function FirstNames(): seq<string> {
      if resolved.Some? then resolved.value.first else []
    }
    function SecondNames(): seq<string> {
      if resolved.Some? then resolved.value.second else []
    }
  }

  /** The symbol table: names for code addresses and for data addresses. */
  datatype Symbols = Symbols(code: bv64 -> string, data: nat -> string)

  function Names(syms: Symbols, a: AccessEntry): (names: seq<string>)
    ensures |names| == a.stackSize
  {
    seq(a.stackSize, i requires 0 <= i < a.stackSize => syms.code(a.trace[i]))
  }

  /** `resolve_race`: does nothing the second time. */
  function Resolve(syms: Symbols, d: Decorated): Decorated {
    if d.resolved.Some? then d
    else
      d.(resolved := Some(Resolution(syms.data(d.race.first.memory),
                                     Names(syms, d.race.first), Names(syms, d.race.second))))
  }

  /** The name of the address and of every frame is the one the table has for it. */
  ghost predicate NamedRight(syms: Symbols, d: Decorated) {
    && d.resolved.Some?
    && d.resolved.value.address == syms.data(d.race.first.memory)
    && |d.resolved.value.first| == d.race.first.stackSize
    && |d.resolved.value.second| == d.race.second.stackSize
    && (forall i | 0 <= i < d.race.first.stackSize :: d.resolved.value.first[i] == syms.code(d.race.first.trace[i]))
    && (forall i | 0 <= i < d.race.second.stackSize ::
          d.resolved.value.second[i] == syms.code(d.race.second.trace[i]))
  }

  /** The same race: as it was if it had names already, else with the right ones. */
  ghost predicate Renamed(syms: Symbols, before: Decorated, after: Decorated) {
    && after.race == before.race && after.elapsed == before.elapsed
    && if before.resolved.Some? then after == before else NamedRight(syms, after)
  }

  lemma ResolveNames(syms: Symbols, d: Decorated)
    ensures Renamed(syms, d, Resolve(syms, d))
  {
  }

  /** A stack whose top address is null. */
  function StackImplausible(r: Race): bool {
    && r.first.stackSize != 0 && r.second.stackSize != 0
    && (r.first.trace[r.first.stackSize - 1] == 0 || r.second.trace[r.second.stackSize - 1] == 0)
  }
}
