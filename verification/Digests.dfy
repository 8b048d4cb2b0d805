/**
 Content digests as free constructors: two digests are equal exactly when they were taken
 of the same thing. `NoHash` is the empty string an entry carries when nothing was hashed.
 */
module Digests {
  import opened ByteStrings

  datatype Digest = NoHash | Raw(content: Bytes) | Composite(chunks: seq<Digest>)

  /** The single digest that stands for a whole chunk manifest. */
  function CompositeHash(manifest: seq<Digest>): Digest {
    if manifest == [] then Raw([]) else Composite(manifest)
  }
}
