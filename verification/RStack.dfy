/** src/rstack.c: a stack of pointers in a block of fixed size. */
module RStack {
  import opened Wrappers

  class Stack<T(0)> {
    var n: array<T>
    var size: int
    var top: int

    ghost predicate Valid()
      reads this
    {
      n.Length == size && -1 <= top < size
    }

    /** Bottom first. */
    ghost function Contents(): seq<T>
      requires Valid()
      reads this, n
    {
      n[..top + 1]
    }

    /** newRStack; a size that is not positive is refused there. */
    constructor (size: int)
      requires size > 0
      ensures Valid() && this.size == size && Contents() == [] && fresh(n)
    {
      n := new T[size];
      this.size := size;
      top := -1;
    }

    /** isEmptyRStack. */
    method IsEmpty() returns (empty: bool)
      requires Valid()
      ensures empty <==> Contents() == []
    {
      empty := top == -1;
    }

    /** pushRStack: false, and nothing done, on a full stack. */
    method Push(x: T) returns (ok: bool)
      requires Valid()
      modifies this`top, n
      ensures Valid()
      ensures ok <==> |old(Contents())| < size
      ensures Contents() == if ok then old(Contents()) + [x] else old(Contents())
    {
      if top >= size - 1 {
        return false;
      }
      top := top + 1;
      n[top] := x;
      return true;
    }

    /** popRStack. */
    method Pop() returns (x: Option<T>)
      requires Valid()
      modifies this`top
      ensures Valid()
      ensures if old(Contents()) == [] then x == None && Contents() == []
              else x == Some(old(Contents()[|Contents()| - 1])) && Contents() == old(Contents()[..|Contents()| - 1])
    {
      if top == -1 {
        return None;
      }
      top := top - 1;
      return Some(n[top + 1]);
    }
  }
}
