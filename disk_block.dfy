/**
  The older device-family classifier that whole disks go through
  (src/disk/block.rs). Its table is the one of `LinuxBlock` except that the
  MMC and NVMe patterns also demand the `p` that precedes a partition
  number, so only SCSI and virtio names of whole disks are recognised.
 */
module DiskBlock {
  import opened Wrappers
  import opened Text
  import Search

  datatype LinuxBlockDevice = SCSI | VIRT | MMCBLK | NVME

  /** `impl Default`: a disk is SCSI until told otherwise. */
  function Default(): LinuxBlockDevice { SCSI }

  // ---------------------------------------------------------------------------
  // Patterns: `(sd)[a-z]`, `(vd)[a-z]`, `(mmcblk)\d+[p]`, `(nvme)\d+[n]\d+[p]`
  // ---------------------------------------------------------------------------

  /** `\d+[n]\d+[p]` starting at `k` */
  predicate NamespacePartAt(s: string, k: nat)
    requires k <= |s|
  {
    match DigitsThen(s, k, 'n')
    case None => false
    case Some(j) => DigitsThen(s, j + 1, 'p').Some?
  }

  /** The family's pattern matches starting at position `i` of `s`. */
  predicate PatternAt(dev: LinuxBlockDevice, s: string, i: nat) {
    match dev
    case SCSI => LiteralAt(s, i, "sd") && i + 2 < |s| && IsLower(s[i + 2])
    case VIRT => LiteralAt(s, i, "vd") && i + 2 < |s| && IsLower(s[i + 2])
    case MMCBLK => LiteralAt(s, i, "mmcblk") && DigitsThen(s, i + 6, 'p').Some?
    case NVME => LiteralAt(s, i, "nvme") && NamespacePartAt(s, i + 4)
  }

  /** The family's pattern matches at some position `j >= i` of `s`. */
  predicate PatternFrom(dev: LinuxBlockDevice, s: string, i: nat)
    decreases |s| - i
  {
    i < |s| && (PatternAt(dev, s, i) || PatternFrom(dev, s, i + 1))
  }

  /** `Regex::is_match`: the family's pattern occurs somewhere in `s`. */
  predicate PatternOccurs(dev: LinuxBlockDevice, s: string) {
    PatternFrom(dev, s, 0)
  }

  lemma {:induction false} PatternFromIff(dev: LinuxBlockDevice, s: string, i: nat)
    ensures PatternFrom(dev, s, i) <==> exists j | i <= j < |s| :: PatternAt(dev, s, j)
    decreases |s| - i
  {
    if i < |s| {
      PatternFromIff(dev, s, i + 1);
      if exists j | i <= j < |s| :: PatternAt(dev, s, j) {
        var j :| i <= j < |s| && PatternAt(dev, s, j);
        assert j == i || i + 1 <= j;
      }
    }
  }

  lemma PatternOccursIff(dev: LinuxBlockDevice, s: string)
    ensures PatternOccurs(dev, s) <==> exists i | 0 <= i < |s| :: PatternAt(dev, s, i)
  {
    PatternFromIff(dev, s, 0);
  }

  lemma NamespacePartAtShift(a: string, t: string, k: nat)
    requires k <= |t|
    ensures NamespacePartAt(a + t, |a| + k) == NamespacePartAt(t, k)
  {
    DigitsThenShift(a, t, k, 'n');
    match DigitsThen(t, k, 'n')
    case None =>
    case Some(j) => DigitsThenShift(a, t, j + 1, 'p');
  }

  /** Prepending text moves a match by the prepended length and changes nothing else. */
  lemma PatternAtShift(dev: LinuxBlockDevice, a: string, t: string, i: nat)
    ensures PatternAt(dev, a + t, |a| + i) == PatternAt(dev, t, i)
  {
    var s := a + t;
    match dev
    case SCSI =>
      LiteralAtShift(a, t, i, "sd");
      if i + 2 < |t| { assert s[|a| + i + 2] == t[i + 2]; }
    case VIRT =>
      LiteralAtShift(a, t, i, "vd");
      if i + 2 < |t| { assert s[|a| + i + 2] == t[i + 2]; }
    case MMCBLK =>
      LiteralAtShift(a, t, i, "mmcblk");
      if i + 6 <= |t| { DigitsThenShift(a, t, i + 6, 'p'); }
    case NVME =>
      LiteralAtShift(a, t, i, "nvme");
      if i + 4 <= |t| { NamespacePartAtShift(a, t, i + 4); }
  }

  /** No pattern starts inside the `/dev/` directory part of a device path. */
  lemma PatternNotInDevDir(dev: LinuxBlockDevice, t: string, i: nat)
    requires i < 5
    ensures !PatternAt(dev, "/dev/" + t, i)
  {
    var s := "/dev/" + t;
    assert s[0] == '/' && s[1] == 'd' && s[2] == 'e' && s[3] == 'v' && s[4] == '/';
  }

  /** Whether a pattern occurs in `/dev/<t>` depends on `t` alone. */
  lemma PatternOccursUnderDevDir(dev: LinuxBlockDevice, t: string)
    ensures PatternOccurs(dev, "/dev/" + t) == PatternOccurs(dev, t)
  {
    var s := "/dev/" + t;
    PatternOccursIff(dev, s);
    PatternOccursIff(dev, t);
    if PatternOccurs(dev, t) {
      var i :| 0 <= i < |t| && PatternAt(dev, t, i);
      PatternAtShift(dev, "/dev/", t, i);
    }
    if PatternOccurs(dev, s) {
      var j :| 0 <= j < |s| && PatternAt(dev, s, j);
      if j < 5 {
        PatternNotInDevDir(dev, t, j);
      } else {
        PatternAtShift(dev, "/dev/", t, j - 5);
      }
    }
  }

  // ---------------------------------------------------------------------------
  // The classifier
  // ---------------------------------------------------------------------------

  /**
    The pattern table is a `HashMap`, so the classifier meets the four
    families in an order that is not specified. Any arrangement of the four
    is possible.
   */
  predicate IsTableOrder(order: seq<LinuxBlockDevice>) {
    |order| == 4 && SCSI in order && VIRT in order && MMCBLK in order && NVME in order
  }

  /** `linux_blk_name`: the first family, in table order, whose pattern occurs. */
  function LinuxBlkName(deviceName: string, order: seq<LinuxBlockDevice>): (r: Option<LinuxBlockDevice>)
    requires IsTableOrder(order)
    ensures r.Some? ==> PatternOccurs(r.value, deviceName)
    ensures r.Some? ==> exists k | 0 <= k < |order| :: order[k] == r.value && forall j | 0 <= j < k :: !PatternOccurs(order[j], deviceName)
    ensures r.None? <==> forall d: LinuxBlockDevice :: !PatternOccurs(d, deviceName)
  {
    Search.FirstIn(order, (d: LinuxBlockDevice) => PatternOccurs(d, deviceName))
  }

  /** Classifying a path `/dev/<t>` comes down to which patterns occur in `t`. */
  lemma LinuxBlkNameUnderDevDir(t: string, order: seq<LinuxBlockDevice>, dev: Option<LinuxBlockDevice>)
    requires IsTableOrder(order)
    requires forall d: LinuxBlockDevice :: PatternOccurs(d, t) <==> Some(d) == dev
    ensures LinuxBlkName("/dev/" + t, order) == dev
  {
    forall d: LinuxBlockDevice
      ensures PatternOccurs(d, "/dev/" + t) == PatternOccurs(d, t)
    {
      PatternOccursUnderDevDir(d, t);
    }
  }

  /**
    A whole NVMe or MMC disk name has no `p` after its last number, so it
    is never recognised: only a partition path of those families is.
   */
  lemma LinuxBlkNameNeedsPartitionSuffix(c: string, n: string)
    requires c != [] && AllDigits(c)
    requires n != [] && AllDigits(n)
    ensures !PatternOccurs(MMCBLK, "mmcblk" + c)
    ensures !PatternOccurs(NVME, "nvme" + c + "n" + n)
  {
    MmcblkDiskNoMatch(c);
    NvmeDiskNoMatch(c, n);
  }

  lemma MmcblkDiskNoMatch(c: string)
    requires c != [] && AllDigits(c)
    ensures !PatternOccurs(MMCBLK, "mmcblk" + c)
  {
    var m := "mmcblk" + c;
    PatternOccursIff(MMCBLK, m);
    forall i | 0 <= i < |m| ensures !PatternAt(MMCBLK, m, i) {
      if i == 0 {
        DigitRunToEnd("mmcblk", c);
      } else {
        LiteralAtSpec(m, i, "mmcblk");
        if i + 6 <= |m| {
          assert m[i..i + 6][5] == m[i + 5];
          assert m[i + 5] == c[i - 1];
        }
      }
    }
  }

  lemma NvmeDiskNoMatch(c: string, n: string)
    requires c != [] && AllDigits(c)
    requires n != [] && AllDigits(n)
    ensures !PatternOccurs(NVME, "nvme" + c + "n" + n)
  {
    var v := "nvme" + c + "n" + n;
    PatternOccursIff(NVME, v);
    forall i | 0 <= i < |v| ensures !PatternAt(NVME, v, i) {
      if i == 0 {
        assert forall m | 4 <= m < 4 + |c| :: v[m] == c[m - 4];
        assert v[4 + |c|] == 'n';
        RunEndUnique(v, 4, Digit, 4 + |c|);
        DigitRunToEnd("nvme" + c + "n", n);
      } else {
        LiteralAtSpec(v, i, "nvme");
        if i + 4 <= |v| {
          assert v[i..i + 4][3] == v[i + 3];
          if i + 3 < 4 + |c| {
            assert v[i + 3] == c[i - 1];
          } else if i + 3 > 4 + |c| {
            assert v[i + 3] == n[i + 3 - 5 - |c|];
          }
        }
      }
    }
  }

  lemma MatchesOfSda(d: LinuxBlockDevice)
    ensures PatternOccurs(d, "sda") <==> d == SCSI
  {
  }

  lemma MatchesOfSdc(d: LinuxBlockDevice)
    ensures PatternOccurs(d, "sdc") <==> d == SCSI
  {
  }

  lemma MatchesOfVda(d: LinuxBlockDevice)
    ensures PatternOccurs(d, "vda") <==> d == VIRT
  {
  }

  lemma MatchesOfNvme1(d: LinuxBlockDevice)
    ensures !PatternOccurs(d, "nvme1")
  {
  }

  lemma MatchesOfSd1(d: LinuxBlockDevice)
    ensures !PatternOccurs(d, "sd1")
  {
  }

  lemma MatchesOfNvme0n1(d: LinuxBlockDevice)
    ensures !PatternOccurs(d, "nvme0n1")
  {
  }

  lemma MatchesOfNvme0n1p1(d: LinuxBlockDevice)
    ensures PatternOccurs(d, "nvme0n1p1") <==> d == NVME
  {
  }

  /** The classifications of the module's own test that the patterns bear out. */
  lemma LinuxBlkNameExampleSda(order: seq<LinuxBlockDevice>)
    requires IsTableOrder(order)
    ensures LinuxBlkName("/dev/" + "sda", order) == Some(SCSI)
  {
    forall d: LinuxBlockDevice
      ensures PatternOccurs(d, "sda") <==> Some(d) == Some(SCSI)
    {
      MatchesOfSda(d);
    }
    LinuxBlkNameUnderDevDir("sda", order, Some(SCSI));
  }

  lemma LinuxBlkNameExampleSdc(order: seq<LinuxBlockDevice>)
    requires IsTableOrder(order)
    ensures LinuxBlkName("/dev/" + "sdc", order) == Some(SCSI)
  {
    forall d: LinuxBlockDevice
      ensures PatternOccurs(d, "sdc") <==> Some(d) == Some(SCSI)
    {
      MatchesOfSdc(d);
    }
    LinuxBlkNameUnderDevDir("sdc", order, Some(SCSI));
  }

  lemma LinuxBlkNameExampleVda(order: seq<LinuxBlockDevice>)
    requires IsTableOrder(order)
    ensures LinuxBlkName("/dev/" + "vda", order) == Some(VIRT)
  {
    forall d: LinuxBlockDevice
      ensures PatternOccurs(d, "vda") <==> Some(d) == Some(VIRT)
    {
      MatchesOfVda(d);
    }
    LinuxBlkNameUnderDevDir("vda", order, Some(VIRT));
  }

  lemma LinuxBlkNameExampleNvme1(order: seq<LinuxBlockDevice>)
    requires IsTableOrder(order)
    ensures LinuxBlkName("/dev/" + "nvme1", order) == None
  {
    forall d: LinuxBlockDevice
      ensures PatternOccurs(d, "nvme1") <==> Some(d) == None
    {
      MatchesOfNvme1(d);
    }
    LinuxBlkNameUnderDevDir("nvme1", order, None);
  }

  lemma LinuxBlkNameExampleSd1(order: seq<LinuxBlockDevice>)
    requires IsTableOrder(order)
    ensures LinuxBlkName("/dev/" + "sd1", order) == None
  {
    forall d: LinuxBlockDevice
      ensures PatternOccurs(d, "sd1") <==> Some(d) == None
    {
      MatchesOfSd1(d);
    }
    LinuxBlkNameUnderDevDir("sd1", order, None);
  }

  /** The test expects `NVME` for this name, but the NVMe pattern needs a `p` the name lacks. */
  lemma LinuxBlkNameExampleNvme0n1(order: seq<LinuxBlockDevice>)
    requires IsTableOrder(order)
    ensures LinuxBlkName("/dev/" + "nvme0n1", order) == None
  {
    forall d: LinuxBlockDevice
      ensures PatternOccurs(d, "nvme0n1") <==> Some(d) == None
    {
      MatchesOfNvme0n1(d);
    }
    LinuxBlkNameUnderDevDir("nvme0n1", order, None);
  }

  /** A partition path of an NVMe disk is recognised. */
  lemma LinuxBlkNameExampleNvme0n1p1(order: seq<LinuxBlockDevice>)
    requires IsTableOrder(order)
    ensures LinuxBlkName("/dev/" + "nvme0n1p1", order) == Some(NVME)
  {
    forall d: LinuxBlockDevice
      ensures PatternOccurs(d, "nvme0n1p1") <==> Some(d) == Some(NVME)
    {
      MatchesOfNvme0n1p1(d);
    }
    LinuxBlkNameUnderDevDir("nvme0n1p1", order, Some(NVME));
  }
}
