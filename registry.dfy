/**
 * The option table of `JCmdLineParser`: every option is filed under
 * `"--" + longForm` and, when it has one, under `"-" + shortForm`.
 */
module Registry {
  import opened Options

  type Registry = map<string, CmdOption>

  function ShortKey(c: char): string {
    "-" + [c]
  }

  function LongKey(o: CmdOption): string {
    "--" + o.longForm
  }

  /** The spellings under which `addOption` files `o`. */
  function Spellings(o: CmdOption): (keys: set<string>)
    ensures LongKey(o) in keys
    ensures forall k :: k in keys ==> |k| >= 2 && k[0] == '-'
  {
    if o.shortForm.Some? then {ShortKey(o.shortForm.value), LongKey(o)} else {LongKey(o)}
  }

  /** Every spelling in the table is one of the spellings of the option it leads to. */
  ghost predicate Owned(reg: Registry) {
    forall k :: k in reg ==> k in Spellings(reg[k])
  }

  /**
   * `addOption`: file `o` under its spellings. A spelling already present is
   * overwritten, never rejected, and every other spelling keeps its option.
   */
  function Register(reg: Registry, o: CmdOption): (r: Registry)
    ensures LongKey(o) in r && r[LongKey(o)] == o
    ensures o.shortForm.Some? ==> ShortKey(o.shortForm.value) in r && r[ShortKey(o.shortForm.value)] == o
    ensures r.Keys == reg.Keys + Spellings(o)
    ensures forall k :: k in reg && k !in Spellings(o) ==> r[k] == reg[k]
    ensures Owned(reg) ==> Owned(r)
  {
    var withShort := if o.shortForm.Some? then reg[ShortKey(o.shortForm.value) := o] else reg;
    withShort[LongKey(o) := o]
  }

  /** A lone `-` is never the spelling of an option, so it is always unknown. */
  lemma LoneDashUnregistered(reg: Registry)
    requires Owned(reg)
    ensures "-" !in reg
  {
  }
}
