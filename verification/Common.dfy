/** Small types shared by every module of the model. */
module Common {
  datatype Option<+T> = None | Some(value: T)

  datatype Result<+T, +E> = Ok(value: T) | Err(error: E)

  /** One octet of a buffer, a payload or a pixel. */
  newtype byte = x: int | 0 <= x < 256

  function Min(a: int, b: int): int {
    if a <= b then a else b
  }

  function Max(a: int, b: int): int {
    if a <= b then b else a
  }

  lemma SubsetSize<T>(a: set<T>, b: set<T>)
    requires a <= b
    ensures |a| <= |b|
  {
    assert |b| == |a| + |b - a| by {
      assert a + (b - a) == b;
    }
  }

  /** In a table laid out row by row, a whole row lies between the starts of different rows. */
  lemma RowsApart(width: nat, r: nat, row: nat)
    requires r < row
    ensures r * width + width <= row * width
  {
    assert row * width == (r + 1) * width + (row - r - 1) * width;
  }
}
