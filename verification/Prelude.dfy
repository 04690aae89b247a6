/** Shared vocabulary: bytes, text, optional results and saturating arithmetic. */
module Prelude {

  type byte = b: int | 0 <= b < 256

  type Bytes = seq<byte>

  /** UTF-8 text, held as its bytes: the source indexes and measures `str` by byte. */
  type Text = Bytes

  datatype Option<+T> = None | Some(value: T)

  datatype Result<+T, +E> = Ok(value: T) | Err(error: E)

  /** `u64::saturating_sub`: subtraction that stops at zero. */
  function SaturatingSub(a: int, b: int): int {
    if a >= b then a - b else 0
  }

  /** The map that sends every key to its image. Built key by key, so that two
      such maps are equal exactly when they agree on their keys. */
  ghost function MapOf<K, V>(keys: set<K>, f: K --> V): (m: map<K, V>)
    requires forall k :: k in keys ==> f.requires(k)
    ensures m.Keys == keys
    ensures forall k :: k in keys ==> m[k] == f(k)
  {
    if keys == {} then
      map[]
    else
      var k :| k in keys;
      MapOf(keys - {k}, f)[k := f(k)]
  }

  /** A string literal as bytes. Only used on ASCII literals. */
  function Ascii(s: string): (t: Text)
    ensures |t| == |s|
  {
    seq(|s|, i requires 0 <= i < |s| => s[i] as int % 256)
  }
}
