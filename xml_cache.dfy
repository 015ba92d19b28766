/**
 * `readLookAndFeelXML(themePath)` and `xmlCache`: the look-and-feel XML of a
 * theme is read from disk at most once per path; later reads are answered
 * from a process-wide map. The file system is a fixed map from theme path
 * to the text of its descriptor, and every attempt to read a file is
 * counted.
 */
module XmlCache {
  import opened Wrappers

  class LookAndFeelXmlCache {
    /** The descriptor files on disk, by theme path. */
    const disk: map<string, string>
    /** `xmlCache`: the descriptors read so far, by theme path. */
    var entries: map<string, string>
    /** How many times the file system has been asked for a descriptor. */
    var diskReads: nat

    /** A cached descriptor is always the one on disk. */
    ghost predicate Valid()
      reads this
    {
      forall p :: p in entries ==> p in disk && entries[p] == disk[p]
    }

    constructor (files: map<string, string>)
      ensures disk == files && entries == map[] && diskReads == 0
      ensures Valid()
    {
      disk := files;
      entries := map[];
      diskReads := 0;
    }

    /** Deletes every cached descriptor. */
    method Clear()
      requires Valid()
      modifies this
      ensures Valid()
      ensures entries == map[] && diskReads == old(diskReads)
    {
      entries := map[];
    }

    /**
     * `readLookAndFeelXML(themePath)`: the descriptor on disk (`None` when
     * there is none). A cached path costs no disk read; an uncached one
     * costs exactly one, and a descriptor found is cached.
     */
    method ReadLookAndFeelXML(themePath: string) returns (xml: Option<string>)
      requires Valid()
      modifies this
      ensures Valid()
      ensures xml == if themePath in disk then Some(disk[themePath]) else None
      ensures themePath in old(entries) ==> diskReads == old(diskReads) && entries == old(entries)
      ensures themePath !in old(entries) ==> diskReads == old(diskReads) + 1
      ensures themePath !in old(entries) && themePath in disk ==>
        entries == old(entries)[themePath := disk[themePath]]
      ensures themePath !in disk ==> entries == old(entries)
      ensures themePath in disk ==> themePath in entries
    {
      if themePath in entries {
        xml := Some(entries[themePath]);
      } else {
        diskReads := diskReads + 1;
        if themePath in disk {
          entries := entries[themePath := disk[themePath]];
          xml := Some(disk[themePath]);
        } else {
          xml := None;
        }
      }
    }
  }

  /**
   * Reading the same descriptor twice, starting from an emptied cache,
   * returns its text both times and touches the disk exactly once.
   */
  method ReadTwice(files: map<string, string>, themePath: string) returns (first: Option<string>, second: Option<string>, readCount: nat)
    requires themePath in files
    ensures first == second == Some(files[themePath])
    ensures readCount == 1
  {
    var cache := new LookAndFeelXmlCache(files);
    cache.Clear();
    first := cache.ReadLookAndFeelXML(themePath);
    second := cache.ReadLookAndFeelXML(themePath);
    readCount := cache.diskReads;
  }
}
