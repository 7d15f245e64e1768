/** Small datatypes shared by every component. */
module Basics {

  datatype Option<+T> = None | Some(value: T)

  function Max(a: int, b: int): int {
    if a >= b then a else b
  }

  function Min(a: int, b: int): int {
    if a <= b then a else b
  }

  /** Taking x off a worklist moves it to what is done. */
  lemma TakeOff<T>(all: set<T>, left: set<T>, x: T)
    requires left <= all && x in left
    ensures all - (left - {x}) == (all - left) + {x}
    ensures |left - {x}| < |left|
  {
  }

  lemma TakeOffBeside<T>(base: set<T>, all: set<T>, left: set<T>, x: T)
    requires left <= all && x in left
    ensures base + (all - (left - {x})) == (base + (all - left)) + {x}
    ensures |left - {x}| < |left|
  {
  }

  lemma AllTakenOff<T>(base: set<T>, all: set<T>)
    ensures base + (all - {}) == base + all && all - {} == all && all - all == {} && base + {} == base
  {
  }
}
