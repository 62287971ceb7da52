/** Small shared vocabulary: optional values and the seven search-result codes. */
module Common {

  datatype Option<T> = None | Some(value: T)

  /** The result codes a search node or a finished game carries. */
  datatype Result =
    | Loss | Draw | Win
    | DeducedLoss | DeducedDraw | DeducedWin
    | NoResult

  /** The character for a single decimal digit. */
  function DigitChar(n: int): (c: char)
    requires 0 <= n <= 9
    ensures '0' <= c <= '9'
    ensures c as int - '0' as int == n
  {
    ('0' as int + n) as char
  }

  /** Strictly increasing integers. */
  predicate Increasing(s: seq<int>)
  {
    forall a, b | 0 <= a < b < |s| :: s[a] < s[b]
  }

  /** The positions below `n` where `mask` is set, in ascending order. */
  function IndicesBelow(mask: seq<bool>, n: int): (r: seq<int>)
    requires 0 <= n <= |mask|
    ensures |r| <= n
    ensures forall k | 0 <= k < |r| :: 0 <= r[k] < n && mask[r[k]]
    ensures forall j | 0 <= j < n && mask[j] :: j in r
    ensures Increasing(r)
  {
    if n == 0 then []
    else IndicesBelow(mask, n - 1) + (if mask[n - 1] then [n - 1] else [])
  }

  /** The set positions of a whole mask, ascending (a bitset's members in index order). */
  function TrueIndices(mask: seq<bool>): (r: seq<int>)
    ensures forall k | 0 <= k < |r| :: 0 <= r[k] < |mask| && mask[r[k]]
    ensures forall j | 0 <= j < |mask| && mask[j] :: j in r
    ensures Increasing(r)
  {
    IndicesBelow(mask, |mask|)
  }
}
