module Numbers {
  function AtLeastZero(x: int): nat {
    if x < 0 then 0 else x
  }

  function AtLeastOne(x: int): nat {
    if x > 1 then x else 1
  }
}
