/** The renderer's fixed-capacity `Container<T, sz>`. */
module Containers {

  /** A bounded array `obj` with a fill counter `index`. The source's
      `push_back` does no bounds check, so the model requires room;
      `operator[]` does not check against the fill counter either, only
      the array bound matters. */
  class Container<T(0)> {
    const obj: array<T>
    var index: nat

    ghost predicate Valid()
      reads this
    {
      index <= obj.Length
    }

    /** The items pushed since the last `clear`. */
    ghost function Contents(): seq<T>
      reads this, obj
      requires Valid()
    {
      obj[..index]
    }

    constructor (sz: nat)
      ensures Valid() && fresh(obj) && obj.Length == sz && index == 0
    {
      obj := new T[sz];
      index := 0;
    }

    /** `push_back`: store at position `index`, then increment it. */
    method PushBack(a: T)
      requires Valid() && index < obj.Length
      modifies this, obj
      ensures Valid()
      ensures index == old(index) + 1
      ensures obj[..] == old(obj[..])[old(index) := a]
      ensures Contents() == old(Contents()) + [a]
    {
      obj[index] := a;
      index := index + 1;
    }

    /** `clear`: forget the contents; the array keeps its old entries. */
    method Clear()
      requires Valid()
      modifies this
      ensures Valid() && index == 0 && Contents() == []
    {
      index := 0;
    }

    /** `size()` */
    function Size(): (n: nat)
      reads this, obj
      requires Valid()
      ensures n == |Contents()|
    {
      index
    }

    /** `operator[]`: any slot of the array, filled or not. */
    function At(i: nat): (a: T)
      reads this, obj
      requires i < obj.Length
      ensures Valid() && i < index ==> a == Contents()[i]
    {
      obj[i]
    }
  }
}
