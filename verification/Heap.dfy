/** The store as the minimizer sees it: addressed blocks whose fields are
    integers or pointers, and chunks of raw bytes. Transients are resolved and
    addresses do not move. */
module Heap {

  type Addr = nat

  datatype Word = Int(i: int) | Ptr(a: Addr)

  datatype Block =
    | Block(tag: nat, mutable: bool, args: seq<Word>)
    | Chunk(mutable: bool, bytes: seq<nat>)
  {
    function GetLabel(): nat {
      if Chunk? then CHUNK_LABEL else tag
    }

    /** The fields that can be followed; a chunk looks like a block but has none. */
    function Fields(): seq<Word> {
      if Block? then args else []
    }
  }

  type Store = map<Addr, Block>

  // The generated label numbers: the 19 helper labels end at 2^7 - 1 - 8, the
  // transient, chunk and weak-map labels follow.
  const GENSET_LABEL := 101
  const INT_MAP_LABEL := 102
  const CHUNK_MAP_LABEL := 103
  const MAP_LABEL := 104
  const HASHNODEARRAY_LABEL := 105
  const HASHNODE_LABEL := 106
  const QUEUE_LABEL := 107
  const STACK_LABEL := 108
  const ROOTSETELEMENT_LABEL := 109
  const UNIQUESTRING_LABEL := 110
  const THREAD_LABEL := 111
  const TASKSTACK_LABEL := 112
  const CLOSURE_LABEL := 113
  const TUPLE_LABEL := 114
  const CONCRETE_LABEL := 115
  const TRANSFORM_LABEL := 116
  const ARGS_LABEL := 117
  const IODESC_LABEL := 118
  const HOLE_LABEL := 120
  const FUTURE_LABEL := 121
  const REF_LABEL := 122
  const CANCELLED_LABEL := 123
  const BYNEED_LABEL := 124
  const CHUNK_LABEL := 125
  const WEAK_MAP_LABEL := 126

  /** Every pointer leads to a block of the store, and only chunks carry the chunk label. */
  predicate Closed(s: Store) {
    forall a :: a in s ==>
      && (s[a].Block? ==> s[a].tag != CHUNK_LABEL)
      && forall k :: 0 <= k < |s[a].Fields()| && s[a].Fields()[k].Ptr? ==> s[a].Fields()[k].a in s
  }
}
