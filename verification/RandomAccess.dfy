/** Positioned reads from a file, which come back short past its end. */
module RandomAccess {
  import opened Common

  // seek and read: what the store has of the range.
  function ReadAt(store: Bytes, offset: nat, length: nat): Bytes {
    store[Min(offset, |store|)..Min(offset + length, |store|)]
  }

  predicate Readable(store: Bytes, offset: nat, length: nat) {
    length == 0 || offset + length <= |store|
  }

  lemma ReadableIff(store: Bytes, offset: nat, length: nat)
    ensures |ReadAt(store, offset, length)| == length <==> Readable(store, offset, length)
    ensures Readable(store, offset, length) && length > 0 ==> ReadAt(store, offset, length) == store[offset..offset + length]
  {
  }
}
