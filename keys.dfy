/** The list of held keys that `readKey` maintains from key-down and key-up events. */
module Keys {
  import opened JsArray

  /** W, up, A, left, S, down, D, right and space. */
  const KeysTracked: seq<int> := [87, 38, 65, 37, 83, 40, 68, 39, 32]

  /** The space bar, which fires while it is held. */
  const SpaceKey: int := 32

  /**
   * `readKey`: `down` is the event's `state` (true on key-down). A tracked
   * key that is not held is pushed on either event; a held key is removed
   * on key-up and left alone on key-down.
   */
  function ReadKey(keys: seq<int>, key: int, down: bool): seq<int> {
    if key in KeysTracked then
      if key in keys then
        if !down then Splice(keys, IndexOf(keys, key)) else keys
      else keys + [key]
    else keys
  }

  /** What `keysDown` can hold: tracked codes, each at most once. */
  predicate WellFormed(keys: seq<int>) {
    NoDuplicates(keys) && forall k :: k in keys ==> k in KeysTracked
  }

  lemma ReadKeyKeepsWellFormed(keys: seq<int>, key: int, down: bool)
    requires WellFormed(keys)
    ensures WellFormed(ReadKey(keys, key, down))
  {
    if key in KeysTracked && key in keys && !down {
      SpliceOfIndexOf(keys, key);
    }
  }

  /**
   * Which keys are held afterwards: only the event's own key can change,
   * and it is held unless it was held and this is its key-up.
   */
  lemma ReadKeyMembers(keys: seq<int>, key: int, down: bool)
    requires NoDuplicates(keys)
    ensures forall k :: k in ReadKey(keys, key, down) <==>
      if k == key && key in KeysTracked then key !in keys || down else k in keys
  {
    if key in KeysTracked && key in keys && !down {
      SpliceOfIndexOf(keys, key);
    }
  }

  /** A key-down of a key already held, or any event of an untracked key, changes nothing. */
  lemma ReadKeyNoChange(keys: seq<int>, key: int, down: bool)
    requires (key in keys && down) || key !in KeysTracked
    ensures ReadKey(keys, key, down) == keys
  {
  }

  /** A key-up of a tracked key that is not held adds it, as a key-down would. */
  lemma KeyUpOfUnheldKeyPushes(keys: seq<int>, key: int)
    requires key in KeysTracked && key !in keys
    ensures ReadKey(keys, key, false) == keys + [key]
    ensures ReadKey(keys, key, false) == ReadKey(keys, key, true)
  {
  }

  /** A key-up of a held key and the key-down that follows restore the held set. */
  lemma ReleaseThenPress(keys: seq<int>, key: int)
    requires WellFormed(keys) && key in keys
    ensures forall k :: k in ReadKey(ReadKey(keys, key, false), key, true) <==> k in keys
  {
    SpliceOfIndexOf(keys, key);
  }
}
