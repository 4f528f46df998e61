/** Reusable mask buffers for the delta encoders. */
module Scratches {
  import opened Core

  /** Two vectors that only grow; what they hold between calls is stale. */
  class CodecScratch {
    var componentChanged: seq<bool>
    var fieldMask: seq<bool>

    constructor ()
      ensures componentChanged == [] && fieldMask == []
    {
      componentChanged, fieldMask := [], [];
    }

    /** Grows the buffers to at least the given sizes, keeping what they hold. */
    method EnsureCapacity(components: nat, fields: nat)
      modifies this
      ensures |componentChanged|
           == (if |old(componentChanged)| < components then components else |old(componentChanged)|)
      ensures |fieldMask| == (if |old(fieldMask)| < fields then fields else |old(fieldMask)|)
      ensures old(componentChanged) <= componentChanged && old(fieldMask) <= fieldMask
    {
      if |componentChanged| < components {
        componentChanged := componentChanged + seq(components - |componentChanged|, _ => false);
      }
      if |fieldMask| < fields {
        fieldMask := fieldMask + seq(fields - |fieldMask|, _ => false);
      }
    }

    /** Clears the first `n` component flags. */
    method ClearComponents(n: nat)
      requires n <= |componentChanged|
      modifies this`componentChanged
      ensures |componentChanged| == |old(componentChanged)|
      ensures forall i :: 0 <= i < n ==> !componentChanged[i]
    {
      componentChanged := seq(n, _ => false) + componentChanged[n..];
    }
  }
}
