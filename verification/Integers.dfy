/** Go's fixed-width integers and the conversions between them. */
module Integers {

  const TWO_32 := 0x1_0000_0000
  const TWO_64 := 0x1_0000_0000_0000_0000

  type uint32 = x: int | 0 <= x < 0x1_0000_0000
  type int64 = x: int | -0x8000_0000_0000_0000 <= x < 0x8000_0000_0000_0000
  type uint64 = x: int | 0 <= x < 0x1_0000_0000_0000_0000

  /** uint32(v): the low 32 bits. */
  function ToUint32(v: int): uint32 {
    v % TWO_32
  }

  /** It takes away whole turns of 2^32; with its range that fixes it. */
  lemma {:induction false} NarrowingTakesWholeTurns(v: int)
    ensures exists turns: int :: ToUint32(v) == v - turns * 0x1_0000_0000
  {
    assert ToUint32(v) == v - (v / TWO_32) * 0x1_0000_0000;
  }

  /** The number that differs from v by whole turns is the only one it can be. */
  lemma {:induction false} NarrowedIsUnique(v: int, t: uint32, turns: int)
    requires v == t + turns * 0x1_0000_0000
    ensures ToUint32(v) == t
  {
    assert v - ToUint32(v) == (v / TWO_32) * TWO_32;
    assert t - ToUint32(v) == (v / TWO_32 - turns) * TWO_32;
  }

  /** The low 64 bits read as two's complement: conversion to int64 and wrap-around of its arithmetic. */
  function ToInt64(v: int): int64 {
    (v + 0x8000_0000_0000_0000) % TWO_64 - 0x8000_0000_0000_0000
  }
}
