/** Types shared by the modules. */
module Types {
  /** A 256-bit hash, read as a number; hash functions are parameters of the model. */
  type Hash = nat

  datatype Option<+T> = None | Some(value: T)

  ghost function SetOf<T>(s: seq<T>): set<T> {
    set x | x in s
  }

  lemma SetOfPrefix<T>(s: seq<T>, i: nat)
    requires i < |s|
    ensures SetOf(s[..i + 1]) == SetOf(s[..i]) + {s[i]}
    ensures s[..|s|] == s
  {
    assert s[..i + 1] == s[..i] + [s[i]];
  }
}
