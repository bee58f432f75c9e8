/**
  Linux block-device families and the two questions asked of a device path
  (src/linux/block.rs):
  - which family does a bare device name such as `/dev/nvme0n1` belong to
    (`LinuxBlkName`), and
  - how does a partition path such as `/dev/nvme0n1p3` split into the text
    before the partition number and the number itself
    (`LinuxPartPrefixAndPartNum`).
  Each regex is a scanner over the string. Matching is unanchored: the
  leftmost start position at which the pattern matches wins.
 */
module LinuxBlock {
  import opened Wrappers
  import opened Text
  import Search

  datatype LinuxBlockDevice = SCSI | VIRT | MMCBLK | NVME

  function Default(): LinuxBlockDevice { SCSI }

  // ---------------------------------------------------------------------------
  // Bare device-name patterns: `sd[a-z]`, `vd[a-z]`, `mmcblk\d+`, `nvme\d+[n]\d+`
  // ---------------------------------------------------------------------------

  /** `\d+[n]\d+` starting at `k` */
  predicate NamespaceAt(s: string, k: nat)
    requires k <= |s|
  {
    var j := RunEnd(s, k, Digit);
    j > k && j + 1 < |s| && s[j] == 'n' && IsDigit(s[j + 1])
  }

  /** The family's bare pattern matches starting at position `i` of `s`. */
  predicate BareAt(dev: LinuxBlockDevice, s: string, i: nat) {
    match dev
    case SCSI => LiteralAt(s, i, "sd") && i + 2 < |s| && IsLower(s[i + 2])
    case VIRT => LiteralAt(s, i, "vd") && i + 2 < |s| && IsLower(s[i + 2])
    case MMCBLK => LiteralAt(s, i, "mmcblk") && i + 6 < |s| && IsDigit(s[i + 6])
    case NVME => LiteralAt(s, i, "nvme") && NamespaceAt(s, i + 4)
  }

  /** The family's bare pattern matches at some position `j >= i` of `s`. */
  predicate BareFrom(dev: LinuxBlockDevice, s: string, i: nat)
    decreases |s| - i
  {
    i < |s| && (BareAt(dev, s, i) || BareFrom(dev, s, i + 1))
  }

  /** `Regex::is_match`: the family's bare pattern occurs somewhere in `s`. */
  predicate BareOccurs(dev: LinuxBlockDevice, s: string) {
    BareFrom(dev, s, 0)
  }

  lemma {:induction false} BareFromIff(dev: LinuxBlockDevice, s: string, i: nat)
    ensures BareFrom(dev, s, i) <==> exists j | i <= j < |s| :: BareAt(dev, s, j)
    decreases |s| - i
  {
    if i < |s| {
      BareFromIff(dev, s, i + 1);
    }
  }

  lemma BareOccursIff(dev: LinuxBlockDevice, s: string)
    ensures BareOccurs(dev, s) <==> exists i | 0 <= i < |s| :: BareAt(dev, s, i)
  {
    BareFromIff(dev, s, 0);
  }

  /** Prepending text moves a bare match by the prepended length and changes nothing else. */
  lemma BareAtShift(dev: LinuxBlockDevice, a: string, t: string, i: nat)
    ensures BareAt(dev, a + t, |a| + i) == BareAt(dev, t, i)
  {
    var s := a + t;
    match dev
    case SCSI =>
      LiteralAtShift(a, t, i, "sd");
      if i + 2 < |t| { assert s[|a| + i + 2] == t[i + 2]; }
    case VIRT =>
      LiteralAtShift(a, t, i, "vd");
      if i + 2 < |t| { assert s[|a| + i + 2] == t[i + 2]; }
    case MMCBLK =>
      LiteralAtShift(a, t, i, "mmcblk");
      if i + 6 < |t| { assert s[|a| + i + 6] == t[i + 6]; }
    case NVME =>
      LiteralAtShift(a, t, i, "nvme");
      if i + 4 <= |t| {
        RunEndShift(a, t, i + 4, Digit);
        var j := RunEnd(t, i + 4, Digit);
        if j + 1 < |t| {
          assert s[|a| + j] == t[j];
          assert s[|a| + j + 1] == t[j + 1];
        }
      }
  }

  /** No bare pattern starts inside the `/dev/` directory part of a device path. */
  lemma BareNotInDevDir(dev: LinuxBlockDevice, t: string, i: nat)
    requires i < 5
    ensures !BareAt(dev, "/dev/" + t, i)
  {
    var s := "/dev/" + t;
    assert s[0] == '/' && s[1] == 'd' && s[2] == 'e' && s[3] == 'v' && s[4] == '/';
  }

  /** Whether a bare pattern occurs in `/dev/<t>` depends on `t` alone. */
  lemma BareOccursUnderDevDir(dev: LinuxBlockDevice, t: string)
    ensures BareOccurs(dev, "/dev/" + t) == BareOccurs(dev, t)
  {
    var s := "/dev/" + t;
    BareOccursIff(dev, s);
    BareOccursIff(dev, t);
    if BareOccurs(dev, t) {
      var i :| 0 <= i < |t| && BareAt(dev, t, i);
      BareAtShift(dev, "/dev/", t, i);
    }
    if BareOccurs(dev, s) {
      var j :| 0 <= j < |s| && BareAt(dev, s, j);
      if j < 5 {
        BareNotInDevDir(dev, t, j);
      } else {
        BareAtShift(dev, "/dev/", t, j - 5);
      }
    }
  }

  /**
    The pattern table is a `HashMap`, so the classifier meets the four
    families in an order that is not specified. Any arrangement of the four
    is possible.
   */
  predicate IsTableOrder(order: seq<LinuxBlockDevice>) {
    |order| == 4 && SCSI in order && VIRT in order && MMCBLK in order && NVME in order
  }

  /** `linux_blk_name`: the first family, in table order, whose bare pattern occurs. */
  function LinuxBlkName(deviceName: string, order: seq<LinuxBlockDevice>): (r: Option<LinuxBlockDevice>)
    requires IsTableOrder(order)
    ensures r.Some? ==> BareOccurs(r.value, deviceName)
    ensures r.Some? ==> exists k | 0 <= k < |order| :: order[k] == r.value && forall j | 0 <= j < k :: !BareOccurs(order[j], deviceName)
    ensures r.None? <==> forall d: LinuxBlockDevice :: !BareOccurs(d, deviceName)
  {
    Search.FirstIn(order, (d: LinuxBlockDevice) => BareOccurs(d, deviceName))
  }

  /** When exactly one family's pattern occurs, the answer does not depend on the table order. */
  lemma LinuxBlkNameOnlyMatch(deviceName: string, order: seq<LinuxBlockDevice>, dev: LinuxBlockDevice)
    requires IsTableOrder(order)
    requires BareOccurs(dev, deviceName)
    requires forall d: LinuxBlockDevice | d != dev :: !BareOccurs(d, deviceName)
    ensures LinuxBlkName(deviceName, order) == Some(dev)
  {
  }

  /** When two patterns occur, the table order decides: `sdvda` contains both `sdv` and `vda`. */
  lemma LinuxBlkNameOrderMatters()
    ensures LinuxBlkName("/dev/sdvda", [SCSI, VIRT, MMCBLK, NVME]) == Some(SCSI)
    ensures LinuxBlkName("/dev/sdvda", [VIRT, SCSI, MMCBLK, NVME]) == Some(VIRT)
  {
    var s := "/dev/sdvda";
    assert BareAt(SCSI, s, 5);
    assert BareAt(VIRT, s, 7);
    BareOccursIff(SCSI, s);
    BareOccursIff(VIRT, s);
    assert IsTableOrder([SCSI, VIRT, MMCBLK, NVME]);
    assert IsTableOrder([VIRT, SCSI, MMCBLK, NVME]);
  }

  /** Classifying a path `/dev/<t>` comes down to which patterns occur in `t`. */
  lemma LinuxBlkNameUnderDevDir(t: string, order: seq<LinuxBlockDevice>, dev: Option<LinuxBlockDevice>)
    requires IsTableOrder(order)
    requires forall d: LinuxBlockDevice :: BareOccurs(d, t) <==> Some(d) == dev
    ensures LinuxBlkName("/dev/" + t, order) == dev
  {
    forall d: LinuxBlockDevice
      ensures BareOccurs(d, "/dev/" + t) == BareOccurs(d, t)
    {
      BareOccursUnderDevDir(d, t);
    }
  }

  /** The classifications checked by the module's own test, one name at a time. */
  lemma BareMatchesOfSda1000(d: LinuxBlockDevice)
    ensures BareOccurs(d, "sda1000") <==> d == SCSI
  {
  }

  lemma LinuxBlkNameExampleSda1000(order: seq<LinuxBlockDevice>)
    requires IsTableOrder(order)
    ensures LinuxBlkName("/dev/" + "sda1000", order) == Some(SCSI)
  {
    forall d: LinuxBlockDevice
      ensures BareOccurs(d, "sda1000") <==> Some(d) == Some(SCSI)
    {
      BareMatchesOfSda1000(d);
    }
    LinuxBlkNameUnderDevDir("sda1000", order, Some(SCSI));
  }

  lemma BareMatchesOfSdc1(d: LinuxBlockDevice)
    ensures BareOccurs(d, "sdc1") <==> d == SCSI
  {
  }

  lemma LinuxBlkNameExampleSdc1(order: seq<LinuxBlockDevice>)
    requires IsTableOrder(order)
    ensures LinuxBlkName("/dev/" + "sdc1", order) == Some(SCSI)
  {
    forall d: LinuxBlockDevice
      ensures BareOccurs(d, "sdc1") <==> Some(d) == Some(SCSI)
    {
      BareMatchesOfSdc1(d);
    }
    LinuxBlkNameUnderDevDir("sdc1", order, Some(SCSI));
  }

  lemma BareMatchesOfVda1(d: LinuxBlockDevice)
    ensures BareOccurs(d, "vda1") <==> d == VIRT
  {
  }

  lemma LinuxBlkNameExampleVda1(order: seq<LinuxBlockDevice>)
    requires IsTableOrder(order)
    ensures LinuxBlkName("/dev/" + "vda1", order) == Some(VIRT)
  {
    forall d: LinuxBlockDevice
      ensures BareOccurs(d, "vda1") <==> Some(d) == Some(VIRT)
    {
      BareMatchesOfVda1(d);
    }
    LinuxBlkNameUnderDevDir("vda1", order, Some(VIRT));
  }

  lemma BareMatchesOfMmcblk(d: LinuxBlockDevice)
    ensures BareOccurs(d, "mmcblk10p20") <==> d == MMCBLK
  {
    match d
    case SCSI =>
    case VIRT =>
    case MMCBLK => assert BareAt(d, "mmcblk10p20", 0);
    case NVME =>
  }

  lemma LinuxBlkNameExampleMmcblk(order: seq<LinuxBlockDevice>)
    requires IsTableOrder(order)
    ensures LinuxBlkName("/dev/" + "mmcblk10p20", order) == Some(MMCBLK)
  {
    forall d: LinuxBlockDevice
      ensures BareOccurs(d, "mmcblk10p20") <==> Some(d) == Some(MMCBLK)
    {
      BareMatchesOfMmcblk(d);
    }
    LinuxBlkNameUnderDevDir("mmcblk10p20", order, Some(MMCBLK));
  }

  lemma BareMatchesOfNvme(d: LinuxBlockDevice)
    ensures BareOccurs(d, "nvme0n1p1") <==> d == NVME
  {
  }

  lemma LinuxBlkNameExampleNvme(order: seq<LinuxBlockDevice>)
    requires IsTableOrder(order)
    ensures LinuxBlkName("/dev/" + "nvme0n1p1", order) == Some(NVME)
  {
    forall d: LinuxBlockDevice
      ensures BareOccurs(d, "nvme0n1p1") <==> Some(d) == Some(NVME)
    {
      BareMatchesOfNvme(d);
    }
    LinuxBlkNameUnderDevDir("nvme0n1p1", order, Some(NVME));
  }

  lemma BareMatchesOfNvme1(d: LinuxBlockDevice)
    ensures !BareOccurs(d, "nvme1")
  {
  }

  lemma LinuxBlkNameExampleNvme1(order: seq<LinuxBlockDevice>)
    requires IsTableOrder(order)
    ensures LinuxBlkName("/dev/" + "nvme1", order) == None
  {
    forall d: LinuxBlockDevice
      ensures BareOccurs(d, "nvme1") <==> Some(d) == None
    {
      BareMatchesOfNvme1(d);
    }
    LinuxBlkNameUnderDevDir("nvme1", order, None);
  }

  lemma BareMatchesOfSd1(d: LinuxBlockDevice)
    ensures !BareOccurs(d, "sd1")
  {
  }

  lemma LinuxBlkNameExampleSd1(order: seq<LinuxBlockDevice>)
    requires IsTableOrder(order)
    ensures LinuxBlkName("/dev/" + "sd1", order) == None
  {
    forall d: LinuxBlockDevice
      ensures BareOccurs(d, "sd1") <==> Some(d) == None
    {
      BareMatchesOfSd1(d);
    }
    LinuxBlkNameUnderDevDir("sd1", order, None);
  }

  // ---------------------------------------------------------------------------
  // Partition-path patterns:
  //   SCSI    `(?P<prefix>/dev/sd[a-z])(?P<part_num>\d+)`
  //   VIRT    `(?P<prefix>/dev/vd[a-z])(?P<part_num>\d+)`
  //   MMCBLK  `(?P<prefix>/dev/mmcblk\d+[p])(?P<part_num>\d+)`
  //   NVME    `(?P<prefix>/dev/nvme\d+[n]\d+[p])(?P<part_num>\d+)`
  // Every `\d+` is followed by a non-digit or ends the pattern, so a greedy
  // match from a given start position is unique and needs no backtracking.
  // ---------------------------------------------------------------------------

  /** At least one character in `[a, b)`, all of them digits. */
  predicate DigitsBetween(s: string, a: nat, b: nat)
    requires b <= |s|
  {
    a < b && forall m | a <= m < b :: IsDigit(s[m])
  }

  /** `/dev/sd[a-z]` or `/dev/vd[a-z]` at `i`, `lit` being the part before the letter. */
  function LetterPrefixEnd(s: string, i: nat, lit: string): Option<nat> {
    if LiteralAt(s, i, lit) && i + |lit| < |s| && IsLower(s[i + |lit|]) then Some(i + |lit| + 1) else None
  }

  /** `/dev/mmcblk\d+[p]` at `i`. */
  function MmcblkPrefixEnd(s: string, i: nat): Option<nat> {
    if !LiteralAt(s, i, "/dev/mmcblk") then None
    else match DigitsThen(s, i + 11, 'p')
      case None => None
      case Some(j) => Some(j + 1)
  }

  /** `/dev/nvme\d+[n]\d+[p]` at `i`. */
  function NvmePrefixEnd(s: string, i: nat): Option<nat> {
    if !LiteralAt(s, i, "/dev/nvme") then None
    else match DigitsThen(s, i + 9, 'n')
      case None => None
      case Some(j) => (
        match DigitsThen(s, j + 1, 'p')
        case None => None
        case Some(q) => Some(q + 1))
  }

  /** Where the `prefix` group ends when the family's partition pattern is tried at position `i`. */
  function PrefixEnd(dev: LinuxBlockDevice, s: string, i: nat): (r: Option<nat>)
    ensures r.Some? ==> i + 5 < r.value <= |s|
  {
    match dev
    case SCSI => LetterPrefixEnd(s, i, "/dev/sd")
    case VIRT => LetterPrefixEnd(s, i, "/dev/vd")
    case MMCBLK => MmcblkPrefixEnd(s, i)
    case NVME => NvmePrefixEnd(s, i)
  }

  /**
    The family's partition pattern tried at position `i`: the end of the
    `prefix` group and the end of the greedy `part_num` group.
   */
  function PartMatchAt(dev: LinuxBlockDevice, s: string, i: nat): (r: Option<(nat, nat)>)
    ensures r.Some? ==> PrefixEnd(dev, s, i) == Some(r.value.0)
    ensures r.Some? ==> r.value.0 < r.value.1 <= |s| && forall m | r.value.0 <= m < r.value.1 :: IsDigit(s[m])
    ensures r.Some? ==> r.value.1 == |s| || !IsDigit(s[r.value.1])
  {
    match PrefixEnd(dev, s, i)
    case None => None
    case Some(p) =>
      var e := RunEnd(s, p, Digit);
      RunEndShape(s, p, Digit);
      if e > p then Some((p, e)) else None
  }

  /** A match: where it starts, where `prefix` ends and where `part_num` ends. */
  datatype Span = Span(start: nat, prefixEnd: nat, end: nat)

  /** The family's partition pattern matches at no position in `[a, b)`. */
  predicate NoPartMatchIn(dev: LinuxBlockDevice, s: string, a: nat, b: nat)
    decreases b - a
  {
    a >= b || (PartMatchAt(dev, s, a).None? && NoPartMatchIn(dev, s, a + 1, b))
  }

  lemma {:induction false} NoPartMatchInIff(dev: LinuxBlockDevice, s: string, a: nat, b: nat)
    ensures NoPartMatchIn(dev, s, a, b) <==> forall j | a <= j < b :: PartMatchAt(dev, s, j).None?
    decreases b - a
  {
    if a < b {
      NoPartMatchInIff(dev, s, a + 1, b);
    }
  }

  /** The leftmost match at or after position `i`. */
  function FirstPartMatch(dev: LinuxBlockDevice, s: string, i: nat): (r: Option<Span>)
    ensures r.Some? ==> i <= r.value.start < |s| && PartMatchAt(dev, s, r.value.start) == Some((r.value.prefixEnd, r.value.end))
    ensures r.Some? ==> NoPartMatchIn(dev, s, i, r.value.start)
    ensures r.None? <==> NoPartMatchIn(dev, s, i, |s|)
    decreases |s| - i
  {
    if i >= |s| then None
    else
      var here := PartMatchAt(dev, s, i);
      if here.Some? then Some(Span(i, here.value.0, here.value.1))
      else FirstPartMatch(dev, s, i + 1)
  }

  /** The named groups of a `Regex::captures` result. */
  datatype PartCaptures = PartCaptures(prefix: Option<string>, partNum: Option<string>)

  /** `Regex::captures` for the family's partition pattern: `None` when there is no match. */
  function CapturePart(dev: LinuxBlockDevice, s: string): Option<PartCaptures> {
    match FirstPartMatch(dev, s, 0)
    case None => None
    case Some(m) => Some(PartCaptures(Some(s[m.start..m.prefixEnd]), Some(s[m.prefixEnd..m.end])))
  }

  /** The three failures `linux_part_prefix_and_part_num` reports. */
  datatype SplitError =
    | NoMatch(blkDev: LinuxBlockDevice, partName: string)
    | MissingPrefix(blkDev: LinuxBlockDevice, partName: string)
    | MissingPartNum(blkDev: LinuxBlockDevice, partName: string)

  /**
    `linux_part_prefix_and_part_num`: the text of the partition path before
    the partition number (for NVMe and MMC including the `p`) and the number
    itself. Both groups are mandatory in every pattern, so a match always
    carries both and the only failure that can occur is `NoMatch`.
   */
  function LinuxPartPrefixAndPartNum(blkDev: LinuxBlockDevice, partName: string): (r: Result<(string, string), SplitError>)
    ensures r.Err? <==> NoPartMatchIn(blkDev, partName, 0, |partName|)
    ensures r.Err? ==> r.error == NoMatch(blkDev, partName)
  {
    match CapturePart(blkDev, partName)
    case None => Err(NoMatch(blkDev, partName))
    case Some(caps) =>
      if caps.prefix.None? then Err(MissingPrefix(blkDev, partName))
      else if caps.partNum.None? then Err(MissingPartNum(blkDev, partName))
      else Ok((caps.prefix.value, caps.partNum.value))
  }

  // ---------------------------------------------------------------------------
  // The shape of a captured prefix, and the split as the inverse of joining
  // ---------------------------------------------------------------------------

  /** `p` is `lit` followed by one lower-case letter. */
  predicate LetterPrefix(p: string, lit: string) {
    |p| == |lit| + 1 && LiteralAt(p, 0, lit) && IsLower(p[|lit|])
  }

  /** `p` is `/dev/mmcblk`, a device number and `p`. */
  predicate MmcblkPrefix(p: string) {
    |p| >= 13 && LiteralAt(p, 0, "/dev/mmcblk") && p[|p| - 1] == 'p' && DigitsBetween(p, 11, |p| - 1)
  }

  /** `p` is `/dev/nvme`, the controller number, then `n` at `k`, the namespace number and `p`. */
  predicate NvmeSplit(p: string, k: nat) {
    9 < k < |p| - 2 && LiteralAt(p, 0, "/dev/nvme") && p[k] == 'n' && p[|p| - 1] == 'p'
    && DigitsBetween(p, 9, k) && DigitsBetween(p, k + 1, |p| - 1)
  }

  /** The text a family's `prefix` group can capture. */
  predicate PrefixShape(dev: LinuxBlockDevice, p: string) {
    match dev
    case SCSI => LetterPrefix(p, "/dev/sd")
    case VIRT => LetterPrefix(p, "/dev/vd")
    case MMCBLK => MmcblkPrefix(p)
    case NVME => exists k | 9 < k < |p| - 2 :: NvmeSplit(p, k)
  }

  /** The slice `s[i..e]` read from its own start. */
  lemma SliceChars(s: string, i: nat, e: nat)
    requires i <= e <= |s|
    ensures forall m | 0 <= m < e - i :: s[i..e][m] == s[i + m]
  {
  }

  lemma LetterPrefixOfMatch(s: string, i: nat, lit: string)
    requires LetterPrefixEnd(s, i, lit).Some?
    ensures LetterPrefix(s[i..LetterPrefixEnd(s, i, lit).value], lit)
  {
    var e := LetterPrefixEnd(s, i, lit).value;
    SliceChars(s, i, e);
    LiteralAtWindow(s, i, s[i..e], 0, lit);
  }

  lemma MmcblkPrefixOfMatch(s: string, i: nat)
    requires MmcblkPrefixEnd(s, i).Some?
    ensures MmcblkPrefix(s[i..MmcblkPrefixEnd(s, i).value])
  {
    var e := MmcblkPrefixEnd(s, i).value;
    DigitsThenShape(s, i + 11, 'p');
    SliceChars(s, i, e);
    LiteralAtWindow(s, i, s[i..e], 0, "/dev/mmcblk");
  }

  lemma NvmePrefixOfMatch(s: string, i: nat)
    requires NvmePrefixEnd(s, i).Some?
    ensures NvmeSplit(s[i..NvmePrefixEnd(s, i).value], DigitsThen(s, i + 9, 'n').value - i)
  {
    var e := NvmePrefixEnd(s, i).value;
    DigitsThenShape(s, i + 9, 'n');
    DigitsThenShape(s, DigitsThen(s, i + 9, 'n').value + 1, 'p');
    SliceChars(s, i, e);
    LiteralAtWindow(s, i, s[i..e], 0, "/dev/nvme");
  }

  /** What the prefix group captures at a match has the family's prefix shape. */
  lemma PrefixShapeOfMatch(dev: LinuxBlockDevice, s: string, i: nat)
    requires PrefixEnd(dev, s, i).Some?
    ensures PrefixShape(dev, s[i..PrefixEnd(dev, s, i).value])
  {
    match dev
    case SCSI => LetterPrefixOfMatch(s, i, "/dev/sd");
    case VIRT => LetterPrefixOfMatch(s, i, "/dev/vd");
    case MMCBLK => MmcblkPrefixOfMatch(s, i);
    case NVME => NvmePrefixOfMatch(s, i);
  }

  /**
    `prefix` followed by `num` is found at position `i` of `s`, the digits of
    `num` run up to a non-digit or the end, and the family's pattern matches
    nowhere before `i`.
   */
  predicate LeftmostSplitAt(dev: LinuxBlockDevice, s: string, i: nat, prefix: string, num: string) {
    var end := i + |prefix| + |num|;
    end <= |s| && s[i..end] == prefix + num
    && (end == |s| || !IsDigit(s[end]))
    && NoPartMatchIn(dev, s, 0, i)
  }

  /** On success the two parts are the groups of the leftmost match. */
  lemma LinuxPartPrefixAndPartNumOk(blkDev: LinuxBlockDevice, partName: string) returns (m: Span)
    requires LinuxPartPrefixAndPartNum(blkDev, partName).Ok?
    ensures FirstPartMatch(blkDev, partName, 0) == Some(m)
    ensures LinuxPartPrefixAndPartNum(blkDev, partName).value == (partName[m.start..m.prefixEnd], partName[m.prefixEnd..m.end])
  {
    m := FirstPartMatch(blkDev, partName, 0).value;
  }

  /**
    On success the two parts sit side by side in the partition path at the
    leftmost place where the family's pattern matches: the prefix has the
    family's shape and the number is the whole run of digits that follows.
   */
  lemma LinuxPartPrefixAndPartNumShape(blkDev: LinuxBlockDevice, partName: string)
    requires LinuxPartPrefixAndPartNum(blkDev, partName).Ok?
    ensures var (prefix, num) := LinuxPartPrefixAndPartNum(blkDev, partName).value;
      PrefixShape(blkDev, prefix) && |num| > 0 && AllDigits(num)
      && exists i :: LeftmostSplitAt(blkDev, partName, i, prefix, num)
  {
    var m := LinuxPartPrefixAndPartNumOk(blkDev, partName);
    var prefix, num := partName[m.start..m.prefixEnd], partName[m.prefixEnd..m.end];
    PrefixShapeOfMatch(blkDev, partName, m.start);
    AllDigitsSlice(partName, m.prefixEnd, m.end);
    LeftmostSplitOfMatch(blkDev, partName, m);
  }

  lemma LeftmostSplitOfMatch(dev: LinuxBlockDevice, s: string, m: Span)
    requires FirstPartMatch(dev, s, 0) == Some(m)
    ensures LeftmostSplitAt(dev, s, m.start, s[m.start..m.prefixEnd], s[m.prefixEnd..m.end])
  {
    var prefix, num := s[m.start..m.prefixEnd], s[m.prefixEnd..m.end];
    var here := PartMatchAt(dev, s, m.start);
    assert here == Some((m.prefixEnd, m.end));
    assert m.end == |s| || !IsDigit(s[m.end]);
    assert m.start + |prefix| + |num| == m.end;
    SliceJoin(s, m.start, m.prefixEnd, m.end);
  }

  lemma LetterPrefixEndOfShape(p: string, d: string, lit: string)
    requires LetterPrefix(p, lit)
    ensures LetterPrefixEnd(p + d, 0, lit) == Some(|p|)
  {
    LiteralAtWindow(p, 0, p + d, 0, lit);
  }

  lemma MmcblkPrefixEndOfShape(p: string, d: string)
    requires MmcblkPrefix(p)
    ensures MmcblkPrefixEnd(p + d, 0) == Some(|p|)
  {
    var s := p + d;
    LiteralAtWindow(p, 0, s, 0, "/dev/mmcblk");
    RunEndUnique(s, 11, Digit, |p| - 1);
  }

  lemma NvmePrefixEndOfShape(p: string, d: string, k: nat)
    requires NvmeSplit(p, k)
    ensures NvmePrefixEnd(p + d, 0) == Some(|p|)
  {
    var s := p + d;
    LiteralAtWindow(p, 0, s, 0, "/dev/nvme");
    RunEndUnique(s, 9, Digit, k);
    RunEndUnique(s, k + 1, Digit, |p| - 1);
  }

  /** The prefix pattern recognises every well-shaped prefix at the start of a path. */
  lemma PrefixEndOfShape(dev: LinuxBlockDevice, p: string, d: string)
    requires PrefixShape(dev, p)
    ensures PrefixEnd(dev, p + d, 0) == Some(|p|)
  {
    match dev
    case SCSI => LetterPrefixEndOfShape(p, d, "/dev/sd");
    case VIRT => LetterPrefixEndOfShape(p, d, "/dev/vd");
    case MMCBLK => MmcblkPrefixEndOfShape(p, d);
    case NVME =>
      var k :| NvmeSplit(p, k);
      NvmePrefixEndOfShape(p, d, k);
  }

  /** Splitting a path made of a well-shaped prefix and a number gives back the two parts. */
  lemma LinuxPartPrefixAndPartNumJoin(blkDev: LinuxBlockDevice, prefix: string, num: string)
    requires PrefixShape(blkDev, prefix)
    requires |num| > 0 && AllDigits(num)
    ensures LinuxPartPrefixAndPartNum(blkDev, prefix + num) == Ok((prefix, num))
  {
    var s := prefix + num;
    PrefixEndOfShape(blkDev, prefix, num);
    DigitRunToEnd(prefix, num);
    assert PartMatchAt(blkDev, s, 0) == Some((|prefix|, |s|));
    LinuxPartPrefixAndPartNumAtStart(blkDev, s, |prefix|, |s|);
    SliceOfConcat(prefix, num);
  }

  /** A match at the very start of the path is the leftmost one, and its groups are the result. */
  lemma LinuxPartPrefixAndPartNumAtStart(blkDev: LinuxBlockDevice, partName: string, p: nat, e: nat)
    requires PartMatchAt(blkDev, partName, 0) == Some((p, e))
    ensures LinuxPartPrefixAndPartNum(blkDev, partName) == Ok((partName[..p], partName[p..e]))
  {
    assert FirstPartMatch(blkDev, partName, 0) == Some(Span(0, p, e));
  }

  /** The splits checked by the module's own test, one path at a time. */
  lemma LinuxPartPrefixAndPartNumExampleSda1000()
    ensures LinuxPartPrefixAndPartNum(SCSI, "/dev/sda" + "1000") == Ok(("/dev/sda", "1000"))
  {
    assert PrefixShape(SCSI, "/dev/sda");
    assert AllDigits("1000");
    LinuxPartPrefixAndPartNumJoin(SCSI, "/dev/sda", "1000");
  }

  lemma LinuxPartPrefixAndPartNumExampleSdc1()
    ensures LinuxPartPrefixAndPartNum(SCSI, "/dev/sdc" + "1") == Ok(("/dev/sdc", "1"))
  {
    assert PrefixShape(SCSI, "/dev/sdc");
    assert AllDigits("1");
    LinuxPartPrefixAndPartNumJoin(SCSI, "/dev/sdc", "1");
  }

  lemma LinuxPartPrefixAndPartNumExampleVda1()
    ensures LinuxPartPrefixAndPartNum(VIRT, "/dev/vda" + "1") == Ok(("/dev/vda", "1"))
  {
    assert PrefixShape(VIRT, "/dev/vda");
    assert AllDigits("1");
    LinuxPartPrefixAndPartNumJoin(VIRT, "/dev/vda", "1");
  }

  lemma LinuxPartPrefixAndPartNumExampleMmcblk()
    ensures LinuxPartPrefixAndPartNum(MMCBLK, "/dev/mmcblk10p" + "20") == Ok(("/dev/mmcblk10p", "20"))
  {
    assert PrefixShape(MMCBLK, "/dev/mmcblk10p");
    assert AllDigits("20");
    LinuxPartPrefixAndPartNumJoin(MMCBLK, "/dev/mmcblk10p", "20");
  }

  lemma LinuxPartPrefixAndPartNumExampleNvme()
    ensures LinuxPartPrefixAndPartNum(NVME, "/dev/nvme0n1p" + "1") == Ok(("/dev/nvme0n1p", "1"))
  {
    assert PrefixShape(NVME, "/dev/nvme0n1p") by {
      assert NvmeSplit("/dev/nvme0n1p", 10);
    }
    assert AllDigits("1");
    LinuxPartPrefixAndPartNumJoin(NVME, "/dev/nvme0n1p", "1");
  }
}
