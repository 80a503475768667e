/**
 The disk as the file system sees it (filesys/synchdisk over machine/disk): a
 sequential store of whole sectors.
 */
module SynchDisks {
  import opened Words

  const NUM_SECTORS := 1024

  type Disk = seq<seq<byte>>

  ghost predicate IsDisk(d: Disk)
  {
    |d| == NUM_SECTORS && forall s | 0 <= s < |d| :: |d[s]| == 512
  }

  class SynchDisk {
    var sectors: Disk

    ghost predicate Valid()
      reads this
    {
      IsDisk(sectors)
    }

    method ReadSector(s: int, data: array<byte>, at: nat)
      requires Valid() && 0 <= s < NUM_SECTORS
      requires at + 512 <= data.Length
      modifies data
      ensures data[..] == old(data[..at]) + sectors[s] + old(data[at + 512..])
    {
      forall j | 0 <= j < 512 {
        data[at + j] := sectors[s][j];
      }
    }

    method WriteSector(s: int, data: array<byte>, at: nat)
      requires Valid() && 0 <= s < NUM_SECTORS
      requires at + 512 <= data.Length
      modifies this
      ensures Valid()
      ensures sectors == old(sectors)[s := data[at..at + 512]]
    {
      sectors := sectors[s := data[at..at + 512]];
    }
  }
}
