/**
  A disk of the dump (src/disk/mod.rs): its device path, its partitions
  once they are read, and its block-device family.
 */
module Disks {
  import opened Wrappers
  import opened Partitions
  import DiskBlock

  datatype Disk = Disk(name: string, partitions: Option<seq<Partition>>, linuxBlockDevice: DiskBlock.LinuxBlockDevice)

  /** `#[derive(Default)]`: no name, no partitions, the default family. */
  function DefaultDisk(): Disk {
    Disk("", None, DiskBlock.Default())
  }

  /** The error `new_disk_without_parts` reports, word for word. */
  const UnknownDiskMessage: string := "disk name does match known Linux block device name (e.g. sdX, vdX, or nvmeXnY)"

  /**
    `Disk::new_disk_without_parts`: a disk named `diskName` with no
    partitions yet, together with the family the classifier finds. The
    family is returned beside the disk; the disk's own family field keeps
    its default.
   */
  function NewDiskWithoutParts(diskName: string, order: seq<DiskBlock.LinuxBlockDevice>): (r: Result<(Disk, DiskBlock.LinuxBlockDevice), string>)
    requires DiskBlock.IsTableOrder(order)
    ensures r.Ok? <==> exists d: DiskBlock.LinuxBlockDevice :: DiskBlock.PatternOccurs(d, diskName)
    ensures r.Ok? ==> r.value.0.name == diskName && r.value.0.partitions == None
    ensures r.Ok? ==> r.value.0.linuxBlockDevice == DiskBlock.SCSI
    ensures r.Ok? ==> DiskBlock.PatternOccurs(r.value.1, diskName) && Some(r.value.1) == DiskBlock.LinuxBlkName(diskName, order)
    ensures r.Err? ==> r.error == UnknownDiskMessage
  {
    match DiskBlock.LinuxBlkName(diskName, order)
    case Some(correctLinuxDevice) =>
      var thisDisk := DefaultDisk().(name := diskName);
      Ok((thisDisk, correctLinuxDevice))
    case None => Err(UnknownDiskMessage)
  }

  /** A virtio disk is found, but the disk record itself still says SCSI. */
  lemma NewDiskWithoutPartsExampleVda(order: seq<DiskBlock.LinuxBlockDevice>)
    requires DiskBlock.IsTableOrder(order)
    ensures NewDiskWithoutParts("/dev/" + "vda", order) == Ok((Disk("/dev/" + "vda", None, DiskBlock.SCSI), DiskBlock.VIRT))
  {
    DiskBlock.LinuxBlkNameExampleVda(order);
  }

  /** A whole NVMe disk is refused, since its name lacks the `p` of a partition path. */
  lemma NewDiskWithoutPartsExampleNvme0n1(order: seq<DiskBlock.LinuxBlockDevice>)
    requires DiskBlock.IsTableOrder(order)
    ensures NewDiskWithoutParts("/dev/" + "nvme0n1", order) == Err(UnknownDiskMessage)
  {
    DiskBlock.LinuxBlkNameExampleNvme0n1(order);
  }
}
