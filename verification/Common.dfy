/**
 What all the models share.
 */
module Common {

  datatype Option<+T> = None | Some(value: T)

  const PAGE_SIZE: nat := 4096

  function Max(x: nat, y: nat): nat {
    if x < y then y else x
  }

  function Min(x: nat, y: nat): nat {
    if x < y then x else y
  }

  predicate OnPage(x: nat) {
    x % PAGE_SIZE == 0
  }
}
