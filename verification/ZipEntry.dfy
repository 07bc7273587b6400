/** One file of an open ZIP archive (mk/linux/mojosetup/archive_zip.c:234-265). */
module ZipEntry {
  import opened Names

  datatype Resolve = UnresolvedFile | UnresolvedSymlink | Resolving | Resolved | BrokenFile | BrokenSymlink

  datatype Option<T> = None | Some(value: T)

  /** What the central directory says about the entry's data. */
  datatype Central = Central(version: nat, versionNeeded: nat, method_: nat, crc: nat, compressedSize: nat, uncompressedSize: nat)

  /** The symlink is the index of the file linked to. */
  datatype Entry = Entry(name: Name, central: Central, resolved: Resolve, symlink: Option<nat>, offset: nat)
}
