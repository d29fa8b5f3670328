/** Value types shared by the whole model: options, results, JavaScript strings and bytes. */
module Base {
  datatype Option<+T> = None | Some(value: T)

  datatype Result<+T, +E> = Ok(value: T) | Err(error: E)

  /** A UTF-16 code unit; a JavaScript string is a sequence of them. */
  type Unit = u: int | 0 <= u < 0x1_0000

  type JsString = seq<Unit>

  type Byte = b: int | 0 <= b < 0x100

  type Bytes = seq<Byte>

  /** A SHA-256 digest in its printed form. */
  type Digest = JsString

  /** A hash over bytes. Nothing is assumed of it; a statement that a collision would break names the collision. */
  type Hash = Bytes -> Digest

  /** Two byte strings are a collision of the hash. */
  predicate Collides(h: Hash, a: Bytes, b: Bytes) {
    a != b && h(a) == h(b)
  }

  /** The largest integer n such that n and n + 1 are both exact doubles. */
  const MAX_SAFE_INTEGER: int := 0x1F_FFFF_FFFF_FFFF

  /** The JavaScript string with the same characters as an ASCII literal. */
  function Ascii(s: string): JsString
    requires forall i :: 0 <= i < |s| ==> s[i] as int < 0x80
  {
    seq(|s|, i requires 0 <= i < |s| => s[i] as int)
  }

  predicate IsLowerHex(u: Unit) {
    0x30 <= u <= 0x39 || 0x61 <= u <= 0x66
  }

  ghost predicate NoDuplicates<T>(xs: seq<T>) {
    forall i, j :: 0 <= i < j < |xs| ==> xs[i] != xs[j]
  }

  function Elements<T>(xs: seq<T>): set<T> {
    set x | x in xs
  }

  function Min(a: int, b: int): int {
    if a <= b then a else b
  }

  function Max(a: int, b: int): int {
    if a <= b then b else a
  }

  lemma MapCons<K, V>(k: K, v: V, more: map<K, V>)
    requires k !in more
    ensures var m := map[k := v] + more;
            && |m| == |more| + 1
            && k in m && m[k] == v
            && forall x :: x in more ==> x in m && m[x] == more[x]
  {
    assert map[k := v] + more == more[k := v];
    assert more.Keys + {k} == more[k := v].Keys;
  }
}
