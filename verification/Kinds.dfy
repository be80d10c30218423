// Object ids, object kinds and directory entry kinds (crates/duckfs/core/src/objects.rs:23-63,136-158).
module Kinds {
  import opened Texts

  // A raw 32-byte hash.
  type Id = Text

  datatype ObjectKind = ChunkKind | FileKind | TreeKind | SnapshotKind

  datatype EntryKind = File | Dir | Symlink
}
