/** The records the sync engine keeps and passes around. */
module SyncTypes {
  import opened ByteStrings
  import opened Digests

  datatype Option<+T> = None | Some(value: T)

  datatype Kind = NoKind | FileKind | DirKind | SymlinkKind | OtherKind(name: string)

  /** Device and inode of a local file; `Unknown` is the empty string. */
  datatype Identity = Unknown | Inode(dev: nat, ino: nat)

  function DefaultIdentity(value: Identity, fallback: Identity): Identity {
    if value.Unknown? then fallback else value
  }

  /** What the daemon last knew about both sides of one path; `deleted` marks a tombstone. */
  datatype SyncEntry = SyncEntry(
    kind: Kind,
    mode: nat,
    size: nat,
    localHash: Digest,
    localIdentity: Identity,
    localMtimeMs: int,
    remoteRevision: string,
    remoteInode: nat,
    remoteHash: Digest,
    remoteMtimeMs: int,
    target: string,
    lastSyncedAt: int,
    chunkSize: int,
    chunkHashes: seq<Digest>,
    version: nat,
    deleted: bool)

  const EMPTY_ENTRY := SyncEntry(NoKind, 0, 0, NoHash, Unknown, 0, "", 0, NoHash, 0, "", 0, 0, [], 0, false)

  const PERMISSIONS: nat := 512

  /** The nine permission bits of a mode. */
  function Perm(mode: nat): nat {
    mode % PERMISSIONS
  }

  /** A chunked entry's hash stands for its manifest. */
  predicate ChunkConsistent(e: SyncEntry) {
    e.chunkSize > 0 ==> e.localHash == CompositeHash(e.chunkHashes)
  }
}
