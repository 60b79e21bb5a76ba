/** Paths as bytes, with slashes between their elements. */
module PathText {
  import opened Bits

  type Text = seq<Byte>

  const SLASH: Byte := 47
  const DOT: Byte := 46

  /** The index of the first slash, or the length. */
  function Stop(s: Text): (n: nat)
    ensures n <= |s|
    ensures forall i :: 0 <= i < n ==> s[i] != SLASH
    ensures n < |s| ==> s[n] == SLASH
  {
    if s == [] || s[0] == SLASH then 0 else 1 + Stop(s[1..])
  }

  lemma StopIs(s: Text, n: nat)
    requires n <= |s| && (forall i :: 0 <= i < n ==> s[i] != SLASH) && (n < |s| ==> s[n] == SLASH)
    ensures Stop(s) == n
  {
  }
}
