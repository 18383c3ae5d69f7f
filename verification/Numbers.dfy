/** The least and the greatest of two numbers. */
module Numbers {
  function Min(x: real, y: real): real {
    if x <= y then x else y
  }

  function Max(x: real, y: real): real {
    if x >= y then x else y
  }

  function Clamp(t: real, lo: real, hi: real): real {
    Min(Max(t, lo), hi)
  }

  function Larger(x: nat, y: nat): nat {
    if x >= y then x else y
  }
}
