// Small shared vocabulary.
module Basics {
  datatype Option<+T> = None | Some(value: T)

  const MaxU64: nat := 0xFFFF_FFFF_FFFF_FFFF

  /** A C++ byte string: every character fits one octet. */
  type Text = s: string | forall i :: 0 <= i < |s| ==> s[i] as int < 256

  function Min(a: nat, b: nat): nat { if a < b then a else b }
}
