/** Keyboard navigation over the result list: the index chosen by `_onArrowDown` and
    `_onArrowUp` once they have checked that the list is not empty. */
module Navigation {

  /** Index after the down arrow over `n` results (`-1` means nothing is focused). */
  function NextDown(index: int, n: nat): int
    requires n > 0
  {
    if index == n - 1 || index == -1 then 0 else index + 1
  }

  /** Index after the up arrow over `n` results. */
  function NextUp(index: int, n: nat): int
    requires n > 0
  {
    if index == -1 || index == 0 then n - 1 else index - 1
  }

  /** From "nothing focused" or any item, both arrows land on an item. */
  lemma MoveStaysInRange(index: int, n: nat)
    requires n > 0 && -1 <= index < n
    ensures 0 <= NextDown(index, n) < n
    ensures 0 <= NextUp(index, n) < n
  {
  }

  /** Down from nothing focused lands on the first item, up on the last one. */
  lemma MoveFromNothingFocused(n: nat)
    requires n > 0
    ensures NextDown(-1, n) == 0 && NextUp(-1, n) == n - 1
  {
  }

  /** Over the items, down is the cyclic successor and up the cyclic predecessor. */
  lemma MoveIsCyclic(index: int, n: nat)
    requires n > 0 && 0 <= index < n
    ensures NextDown(index, n) == (index + 1) % n
    ensures NextUp(index, n) == (index + n - 1) % n
  {
    if index == n - 1 {
      assert (index + 1) % n == n % n == 0;
    } else {
      assert 0 <= index + 1 < n;
    }
    if index == 0 {
      assert (index + n - 1) % n == n - 1;
    } else {
      assert n <= index + n - 1 < 2 * n;
      assert (index + n - 1) % n == index - 1;
    }
  }

  /** Up undoes down and down undoes up, wraparound included. */
  lemma UpDownInverse(index: int, n: nat)
    requires n > 0 && 0 <= index < n
    ensures NextUp(NextDown(index, n), n) == index
    ensures NextDown(NextUp(index, n), n) == index
  {
  }

  /** An index past the end (left over from a longer list) does not wrap: down moves it
      further out and up steps back by one. */
  lemma MoveFromPastTheEnd(index: int, n: nat)
    requires n > 0 && index >= n
    ensures NextDown(index, n) == index + 1 >= n
    ensures NextUp(index, n) == index - 1
  {
  }
}
