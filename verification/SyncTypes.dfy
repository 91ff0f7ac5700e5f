/** The records and entities shared by the store, the decision and the executor. */
module SyncTypes {
  import opened Wrappers

  type Byte = x: int | 0 <= x < 256

  /** File content. */
  type Bytes = seq<Byte>

  /** A provider checksum, comparable only under the same algorithm. */
  datatype Checksum = Checksum(algo: string, value: string)

  datatype Side = LocalSide | RemoteSide

  /** The committed correspondence of one path with one provider object. */
  datatype SyncRecord = SyncRecord(
    path: string,
    hash: string,
    localMtime: nat,
    remoteMtime: nat,
    localSize: nat,
    remoteSize: nat,
    remoteChecksum: Option<Checksum>,
    remoteIdentityKey: string,
    syncedAt: nat)

  /** What one filesystem reports about one address; `hash == ""` and `mtime == 0` mean "not known". */
  datatype FileEntity = FileEntity(
    path: string,
    identityKey: Option<string>,
    isDirectory: bool,
    size: nat,
    mtime: nat,
    hash: string,
    remoteChecksum: Option<Checksum>)
}
