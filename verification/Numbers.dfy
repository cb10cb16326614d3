/** The little arithmetic the modules share. */
module Numbers {
  function Min(a: nat, b: nat): nat { if a < b then a else b }
}
