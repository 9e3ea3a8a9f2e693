/**
 The key-value persistence adapter of the to-do app: one JSON value kept under
 one key of the browser's local store. The browser store and JSON are outside
 the model; what remains is the outcome of reading the key back, and the
 fail-open policy that turns every unusable outcome into an empty value.
 */
module Storage {

  /** What reading one key of the local store and parsing it as JSON yields. */
  datatype Slot<T> =
    | Missing          // no value under the key (or the empty string): "{}" is parsed instead
    | Malformed        // the stored text is not JSON: the parse throws
    | Falsy            // the text parses to null, false, 0 or ""
    | Stored(value: T) // the text parses to a usable value

  /**
   What `JSON.stringify` makes of a value, as far as reading it back is
   concerned: text that parses back to a truthy value equal to the one written
   (a map of records is one), text that parses to a falsy value, or no JSON
   text at all (`undefined`, which is stored as the text "undefined" and does
   not parse). The caller states which case the written value is in.
   */
  datatype Encoding = Truthy | FalsyJson | NoJson

  /**
   `setItem`: the value, encoded as `enc` says, replaces whatever the key held.
   Reading it back gives the value itself when its text parses back to an
   equal truthy value; otherwise the read falls back to the empty value.
   */
  function SetItem<T(!new)>(value: T, enc: Encoding): (slot: Slot<T>)
    ensures forall empty: T {:trigger GetItem(slot, empty)} ::
      GetItem(slot, empty) == (if enc == Truthy then value else empty)
  {
    match enc
    case Truthy => Stored(value)
    case FalsyJson => Falsy
    case NoJson => Malformed
  }

  /**
   `getItem`: reading never fails. The result is the value a usable slot
   holds, and `empty` for a missing, unparsable or falsy one.
   */
  function GetItem<T>(slot: Slot<T>, empty: T): (r: T)
    ensures slot.Stored? ==> slot == Stored(r)
    ensures !slot.Stored? ==> r == empty
  {
    match slot
    case Stored(v) => v
    case _ => empty
  }
}
