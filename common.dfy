/** Option and Result values shared by every module of the model. */
module Common {
  /** A value that may be absent (`null`/`undefined` in TypeScript, `Option` in Rust). */
  datatype Option<T> = None | Some(value: T)

  /** The outcome of an operation that can fail with a message (a rejected promise, a Rust `Err`). */
  datatype Result<T> = Ok(value: T) | Err(error: string)
  {
    predicate IsOk() { Ok? }
  }

  /** Concatenation regrouped, stated generically so that it does not unfold the pieces. */
  lemma AppendAssoc<T>(a: seq<T>, b: seq<T>, c: seq<T>)
    ensures (a + b) + c == a + (b + c)
  {
  }

  /** A slice cut in two at an inner point. */
  lemma SliceSplit<T>(s: seq<T>, a: nat, b: nat, c: nat)
    requires a <= b <= c <= |s|
    ensures s[a..c] == s[a..b] + s[b..c]
  {
  }

  /** One more element of `s` taken. */
  lemma TakeOneMore<T>(s: seq<T>, j: nat)
    requires j < |s|
    ensures s[..j + 1] == s[..j] + [s[j]]
  {
  }

  /** One more element of `s` taken after `a`. */
  lemma TakeSnoc<T>(a: seq<T>, s: seq<T>, j: nat)
    requires j < |s|
    ensures a + s[..j + 1] == (a + s[..j]) + [s[j]]
  {
    assert s[..j + 1] == s[..j] + [s[j]];
  }

  /** All of `s` taken. */
  lemma TakeAll<T>(s: seq<T>)
    ensures s[..|s|] == s
  {
  }

  /** Nothing of `s` taken after `a`, and all of it. */
  lemma TakeEnds<T>(a: seq<T>, s: seq<T>)
    ensures a + s[..0] == a && a + s[..|s|] == a + s
  {
    assert s[..0] == [] && s[..|s|] == s;
  }
}
