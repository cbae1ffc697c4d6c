/** What an ebuild's cache file says, and when it has been read. */
module EbuildMetadata {
  import opened Wrappers
  import Packages
  import AtomFlags
  import RequiredUses

  /** One dependency expression: an atom, a use-conditional, or a group. */
  datatype Dependency =
    | AtomDependency(atom: Packages.Atom, blocks: bool, useflags: Option<seq<AtomFlags.AtomFlag>>)
    | UseDependency(flag: string, operator: RequiredUses.UseOperator)
    | Group

  /** The part of an ebuild that is filled in when its cache file is first read. */
  class Metadata {
    const readable: bool
    const slot: string
    const iuse: map<string, bool>
    const requiredUse: Option<seq<RequiredUses.RequiredUse>>
    /** Build-time, compile-time, run-time and post-install dependencies, one after the other. */
    const depends: seq<Dependency>
    var initialised: bool

    constructor (readable: bool, slot: string, iuse: map<string, bool>,
                 requiredUse: Option<seq<RequiredUses.RequiredUse>>, depends: seq<Dependency>)
      ensures !initialised
      ensures this.readable == readable && this.slot == slot && this.iuse == iuse
      ensures this.requiredUse == requiredUse && this.depends == depends
    {
      this.readable, this.slot, this.iuse := readable, slot, iuse;
      this.requiredUse, this.depends, initialised := requiredUse, depends, false;
    }

    /** The slot as it shows: there is none before the cache file is read. */
    function Slot(): Option<string>
      reads this
    {
      if initialised then Some(slot) else None
    }

    /** The declared flags as they show: there are none before the cache file is read. */
    function Iuse(): map<string, bool>
      reads this
    {
      if initialised then iuse else map[]
    }
  }
}
