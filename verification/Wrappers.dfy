// Datatypes shared by the other modules.
module Wrappers {
  datatype Option<+T> = None | Some(value: T) {
    function GetOr(fallback: T): T {
      match this
      case Some(v) => v
      case None => fallback
    }
  }

  datatype Result<+T, +E> = Ok(value: T) | Err(error: E)

  lemma TakeSnoc<T>(s: seq<T>, i: nat)
    requires i < |s|
    ensures s[..i + 1] == s[..i] + [s[i]] && s[..i + 1][..i] == s[..i]
  {
  }

  lemma Snoc<T>(s: seq<T>)
    requires s != []
    ensures s == s[..|s| - 1] + [s[|s| - 1]]
  {
  }

  lemma Front<T>(init: seq<T>, x: T)
    ensures (init + [x])[..|init|] == init && (init + [x])[|init|] == x
  {
  }

  lemma TakeFull<T>(s: seq<T>)
    ensures s[..|s|] == s
  {
  }
}
