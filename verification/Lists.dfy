/** Linked lists as values: the sibling lists of a tree, and lists that are never empty. */
module Lists {

  datatype List<+T> = Nil | Cons(head: T, tail: List<T>)

  /** rest behind the elements of done, which are listed last first. */
  function RevOnto<T>(done: List<T>, rest: List<T>): List<T> {
    match done
    case Nil => rest
    case Cons(x, more) => RevOnto(more, Cons(x, rest))
  }

  /** x in front of position k, or at the end when there is no such position. */
  function Inserted<T>(ts: List<T>, k: nat, x: T): List<T> {
    if k == 0 || ts.Nil? then Cons(x, ts) else Cons(ts.head, Inserted(ts.tail, k - 1, x))
  }

  function Length<T>(ts: List<T>): nat {
    if ts.Nil? then 0 else 1 + Length(ts.tail)
  }

  function Nth<T>(ts: List<T>, k: nat): T
    requires k < Length(ts)
  {
    if k == 0 then ts.head else Nth(ts.tail, k - 1)
  }

  function Removed<T>(ts: List<T>, k: nat): List<T>
    requires k < Length(ts)
  {
    if k == 0 then ts.tail else Cons(ts.head, Removed(ts.tail, k - 1))
  }

  datatype Chain<+T> = Last(item: T) | More(item: T, rest: Chain<T>)
}
