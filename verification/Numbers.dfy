/** The smaller of two numbers. */
module Numbers {
  function Least(a: int, b: int): int {
    if a <= b then a else b
  }
}
