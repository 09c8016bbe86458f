/** Go slices that start at the front of their array, with what copy and append do. */
module Slices {
  datatype Slice<T> = Slice(data: array<T>, len: nat)
  {
    ghost predicate Valid()
      reads data
    {
      len <= data.Length
    }

    ghost function Elements(): seq<T>
      requires Valid()
      reads data
    {
      data[..len]
    }
  }

  /** copy between two arrays. */
  method Copy<T>(dst: array<T>, to: nat, src: array<T>, from: nat, n: nat)
    requires dst != src && to + n <= dst.Length && from + n <= src.Length
    modifies dst
    ensures forall j :: 0 <= j < dst.Length ==>
              dst[j] == if to <= j < to + n then src[from + j - to] else old(dst[j])
  {
    for k := 0 to n
      invariant forall j :: 0 <= j < dst.Length ==>
                  dst[j] == if to <= j < to + k then src[from + j - to] else old(dst[j])
    {
      dst[to + k] := src[from + k];
    }
  }

  /** append(s[:i], s[i+1:]...), which always fits the array it reads from: the
      tail moves down by one place and the last place keeps its element. */
  method CloseGap<T>(data: array<T>, i: nat, len: nat)
    requires i < len <= data.Length
    modifies data
    ensures data[..] == old(data[..i]) + old(data[i + 1..len]) + old(data[len - 1..])
  {
    for k := i to len - 1
      invariant forall j :: 0 <= j < data.Length ==>
                  data[j] == if i <= j < k then old(data[j + 1]) else old(data[j])
    {
      data[k] := data[k + 1];
    }
  }
}
