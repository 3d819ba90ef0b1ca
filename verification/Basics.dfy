/** Bytes, C strings and the few sequence facts every other module uses. */
module Basics {

  datatype Option<+T> = None | Some(value: T)

  type Byte = b: int | 0 <= b < 256

  /** A C string is modelled by the bytes before its terminating NUL. */
  type Bytes = seq<Byte>

  const NUL: Byte := 0
  const LF: Byte := 10

  function Min(a: nat, b: nat): (m: nat)
    ensures m <= a && m <= b && (m == a || m == b)
  {
    if a < b then a else b
  }

  /** What strncpy into a buffer of `n + 1` bytes, closed with a NUL, keeps of a string. */
  function Cut(s: Bytes, n: nat): (r: Bytes)
    ensures |r| <= n && r <= s
    ensures if |s| <= n then r == s else |r| == n
  {
    s[..Min(|s|, n)]
  }

  lemma SnocParts<T>(s: seq<T>, x: T)
    ensures (s + [x])[..|s|] == s && (s + [x])[|s|] == x
  {
  }

  /** An injective image has as many elements as its domain. */
  lemma {:induction false} InjectionCard<A, B>(dom: set<A>, image: set<B>, f: map<A, B>)
    requires dom <= f.Keys
    requires forall a | a in dom :: f[a] in image
    requires forall a, b | a in dom && b in dom && f[a] == f[b] :: a == b
    ensures |dom| <= |image|
  {
    if dom != {} {
      var a :| a in dom;
      InjectionCard(dom - {a}, image - {f[a]}, f);
    }
  }
}
