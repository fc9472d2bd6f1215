/** The two-level LID map (Topology/fabricdata.c:72-94; Topology/topology.h:586-598). */
module LidIndex {

  const BLOCKS := 1024
  const ENTRIES := 16384
  const LID_MAX := 0xff_ffff

  datatype PortState = Down | Nop | Dormant | Up

  type Lmc = n: nat | n < 16

  /** What LID handling looks at in a port. */
  class PortData {
    const guid: nat
    const lid: nat
    const lmc: Lmc
    const switchPort0: bool
    var state: PortState

    constructor (guid: nat, lid: nat, lmc: Lmc, switchPort0: bool, state: PortState)
      ensures this.guid == guid && this.lid == lid && this.lmc == lmc && this.switchPort0 == switchPort0 && this.state == state
    {
      this.guid, this.lid, this.lmc, this.switchPort0, this.state := guid, lid, lmc, switchPort0, state;
    }
  }

  class LidMap {
    const blocks: array<array?<PortData?>>
    ghost var entries: map<nat, PortData>  // who holds each LID
    ghost var pages: set<array<PortData?>>

    function BlockEntry(lid: nat): PortData?
      requires lid <= LID_MAX && blocks.Length == BLOCKS
      requires blocks[lid / ENTRIES] != null ==> blocks[lid / ENTRIES].Length == ENTRIES
      reads blocks, blocks[lid / ENTRIES]
    {
      if blocks[lid / ENTRIES] == null then null else blocks[lid / ENTRIES][lid % ENTRIES]
    }

    ghost predicate Valid()
      reads this, blocks, pages
    {
      && blocks.Length == BLOCKS
      && (forall i :: 0 <= i < BLOCKS && blocks[i] != null ==> blocks[i] in pages && blocks[i].Length == ENTRIES)
      && (forall i, j :: 0 <= i < j < BLOCKS && blocks[i] != null ==> blocks[i] != blocks[j])
      && (forall lid :: lid in entries ==> lid <= LID_MAX)
      && (forall lid: nat :: lid <= LID_MAX ==>
            BlockEntry(lid) == if lid in entries then entries[lid] else null)
    }

    constructor ()
      ensures Valid() && fresh(blocks) && fresh(pages) && entries == map[]
    {
      blocks := new array?<PortData?>[BLOCKS](i => null);
      entries := map[];
      pages := {};
    }

    method GetMapEntry(lid: nat) returns (p: PortData?)
      requires Valid()
      ensures p == if lid in entries then entries[lid] else null
    {
      if lid > LID_MAX {
        return null;
      }
      if blocks[lid / ENTRIES] == null {
        assert BlockEntry(lid) == null;
        return null;
      }
      assert BlockEntry(lid) == blocks[lid / ENTRIES][lid % ENTRIES];
      return blocks[lid / ENTRIES][lid % ENTRIES];
    }

    /** Set or clear the holder of a LID; a block is only allocated to hold something. */
    method SetMapEntry(lid: nat, p: PortData?) returns (ok: bool)
      requires Valid()
      modifies this, blocks, pages
      ensures Valid() && fresh(pages - old(pages)) && ok == (lid <= LID_MAX) && (p == null ==> pages == old(pages))
      ensures entries == if lid > LID_MAX then old(entries)
                         else if p == null then old(entries) - {lid} else old(entries)[lid := p]
    {
      if lid > LID_MAX {
        return false;
      }
      if blocks[lid / ENTRIES] == null {
        assert BlockEntry(lid) == null;
        if p == null {
          return true;
        }
        AddBlock(lid / ENTRIES);
      }
      SetInBlock(lid, p);
      return true;
    }

    method AddBlock(b: nat)
      requires Valid() && b < BLOCKS && blocks[b] == null
      modifies this, blocks, pages
      ensures Valid() && fresh(pages - old(pages)) && entries == old(entries) && blocks[b] != null
    {
      var block := new PortData?[ENTRIES](i => null);
      blocks[b] := block;
      pages := pages + {block};
      forall lid: nat | lid <= LID_MAX
        ensures BlockEntry(lid) == if lid in entries then entries[lid] else null
      {
        assert old(BlockEntry(lid)) == if lid in entries then entries[lid] else null;
      }
    }

    method SetInBlock(lid: nat, p: PortData?)
      requires Valid() && lid <= LID_MAX && blocks[lid / ENTRIES] != null
      modifies this, blocks, pages
      ensures Valid() && pages == old(pages)
      ensures entries == if p == null then old(entries) - {lid} else old(entries)[lid := p]
    {
      blocks[lid / ENTRIES][lid % ENTRIES] := p;
      entries := if p == null then entries - {lid} else entries[lid := p];
      forall l: nat | l <= LID_MAX
        ensures BlockEntry(l) == if l in entries then entries[l] else null
      {
        assert old(BlockEntry(l)) == if l in old(entries) then old(entries)[l] else null;
        if l != lid && l / ENTRIES == lid / ENTRIES {
          assert l % ENTRIES != lid % ENTRIES;
        }
      }
    }
  }
}
