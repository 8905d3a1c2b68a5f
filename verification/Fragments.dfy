/** A text kept as the fragments it arrived in, addressed by their cumulative ends. */
module Fragments {
  import opened CodeUnits

  /** `ends[i]` is the length of the first `i + 1` fragments, none of them empty. */
  ghost predicate Indexed(chunks: seq<Text>, ends: seq<nat>) {
    && |ends| == |chunks|
    && (forall i {:trigger chunks[i]} :: 0 <= i < |chunks| ==>
        chunks[i] != [] && ends[i] == BaseOf(ends, i) + |chunks[i]|)
  }

  function BaseOf(ends: seq<nat>, i: nat): nat
    requires i <= |ends|
  {
    if i == 0 then 0 else ends[i - 1]
  }

  lemma {:induction false} EndsAscend(chunks: seq<Text>, ends: seq<nat>, i: nat, j: nat)
    requires Indexed(chunks, ends) && i < j < |ends|
    ensures ends[i] < ends[j]
  {
    if i + 1 < j {
      EndsAscend(chunks, ends, i, j - 1);
    }
    assert chunks[j] != [] && ends[j] == BaseOf(ends, j) + |chunks[j]|;
  }

  lemma {:induction false} TotalLength(chunks: seq<Text>, ends: seq<nat>)
    requires Indexed(chunks, ends)
    ensures |Concat(chunks)| == BaseOf(ends, |ends|)
  {
    if chunks != [] {
      var n := |chunks| - 1;
      TotalLength(chunks[..n], ends[..n]);
    }
  }

  /** Fragment `i` is what the whole text holds between its base and its end. */
  lemma {:induction false} ChunkIsSlice(chunks: seq<Text>, ends: seq<nat>, i: nat)
    requires Indexed(chunks, ends) && i < |chunks|
    ensures BaseOf(ends, i) <= ends[i] <= |Concat(chunks)|
    ensures Concat(chunks)[BaseOf(ends, i)..ends[i]] == chunks[i]
  {
    var n := |chunks| - 1;
    var init := Concat(chunks[..n]);
    TotalLength(chunks[..n], ends[..n]);
    if i < n {
      ChunkIsSlice(chunks[..n], ends[..n], i);
      assert BaseOf(ends[..n], i) == BaseOf(ends, i);
      PrefixSlice(init, chunks[n], BaseOf(ends, i), ends[i]);
    } else {
      assert (init + chunks[n])[|init|..|init| + |chunks[n]|] == chunks[n];
    }
  }

  lemma PrefixSlice(a: Text, b: Text, i: nat, j: nat)
    requires i <= j <= |a|
    ensures (a + b)[i..j] == a[i..j]
  {
  }

  /** A piece of one fragment is the same piece of the whole text. */
  lemma PieceIsSlice(chunks: seq<Text>, ends: seq<nat>, i: nat, from: nat, to: nat)
    requires Indexed(chunks, ends) && i < |chunks| && BaseOf(ends, i) <= from <= to <= ends[i]
    ensures to <= |Concat(chunks)|
    ensures chunks[i][from - BaseOf(ends, i)..to - BaseOf(ends, i)] == Concat(chunks)[from..to]
  {
    ChunkIsSlice(chunks, ends, i);
    var text, base := Concat(chunks), BaseOf(ends, i);
    var a, b := chunks[i][from - base..to - base], text[from..to];
    forall k | 0 <= k < |a|
      ensures a[k] == b[k]
    {
      assert a[k] == chunks[i][from - base + k] == text[base..ends[i]][from - base + k];
    }
  }

  lemma {:induction false} ConcatAppend(chunks: seq<Text>, more: seq<Text>)
    ensures Concat(chunks + more) == Concat(chunks) + Concat(more)
  {
    if more == [] {
      assert chunks + more == chunks;
    } else {
      var n := |more| - 1;
      assert (chunks + more)[..|chunks + more| - 1] == chunks + more[..n];
      ConcatAppend(chunks, more[..n]);
    }
  }

  lemma ConcatOne(chunks: seq<Text>, fragment: Text)
    ensures Concat(chunks + [fragment]) == Concat(chunks) + fragment
  {
    assert (chunks + [fragment])[..|chunks|] == chunks;
  }

  /** The first fragment that ends after a position, by binary search. */
  method ChunkAt(chunks: seq<Text>, ends: seq<nat>, at: nat) returns (low: nat)
    requires Indexed(chunks, ends)
    ensures low <= |ends|
    ensures BaseOf(ends, low) <= at
    ensures low < |ends| ==> at < ends[low]
  {
    low := 0;
    var high := |ends|;
    while low < high
      invariant 0 <= low <= high <= |ends|
      invariant BaseOf(ends, low) <= at
      invariant high < |ends| ==> at < ends[high]
    {
      var mid := (low + high) / 2;
      if ends[mid] <= at {
        low := mid + 1;
      } else {
        high := mid;
      }
    }
  }

  /** Where a nonempty range begins and ends. */
  lemma RangeLocated(ends: seq<nat>, chunks: seq<Text>, start: nat, end: nat, first: nat, last: nat)
    requires Indexed(chunks, ends) && start < end <= BaseOf(ends, |ends|)
    requires first <= |ends| && BaseOf(ends, first) <= start && (first < |ends| ==> start < ends[first])
    requires last <= |ends| && BaseOf(ends, last) <= end - 1 && (last < |ends| ==> end - 1 < ends[last])
    ensures first <= last < |ends|
    ensures first < last ==> ends[first] <= ends[last - 1] < end
  {
    if last < first {
      EndsBelow(chunks, ends, last, first - 1);
      assert false;
    }
    if first < last {
      EndsBelow(chunks, ends, first, last - 1);
    }
  }

  /** Join just the pieces that a range covers. */
  method Slice(chunks: seq<Text>, ends: seq<nat>, start: nat, end: nat) returns (s: Text)
    requires Indexed(chunks, ends)
    requires start < end ==> end <= BaseOf(ends, |ends|)
    ensures start < end ==> end <= |Concat(chunks)| && s == Concat(chunks)[start..end]
    ensures end <= start ==> s == []
  {
    if start >= end {
      return [];
    }
    var first := ChunkAt(chunks, ends, start);
    var last := ChunkAt(chunks, ends, end - 1);
    RangeLocated(ends, chunks, start, end, first, last);
    ghost var text := Concat(chunks);
    TotalLength(chunks, ends);
    var base := BaseOf(ends, first);
    if first == last {
      PieceIsSlice(chunks, ends, first, start, end);
      return chunks[first][start - base..end - base];
    }
    PieceIsSlice(chunks, ends, first, start, ends[first]);
    s := chunks[first][start - base..];
    var i := first + 1;
    while i < last
      invariant first < i <= last
      invariant start <= ends[i - 1] <= |text|
      invariant s == text[start..ends[i - 1]]
    {
      ChunkIsSlice(chunks, ends, i);
      Glue(text, start, ends[i - 1], ends[i]);
      s := s + chunks[i];
      i := i + 1;
    }
    PieceIsSlice(chunks, ends, last, ends[last - 1], end);
    Glue(text, start, ends[last - 1], end);
    s := s + chunks[last][..end - ends[last - 1]];
  }

  /** Whether a text of the same length holds every fragment at its place, without joining them. */
  method SpelledBy(chunks: seq<Text>, ends: seq<nat>, text: Text) returns (same: bool)
    requires Indexed(chunks, ends) && |text| == BaseOf(ends, |ends|)
    ensures same == (Concat(chunks) == text)
  {
    ghost var source := Concat(chunks);
    TotalLength(chunks, ends);
    var offset, i := 0, 0;
    while i < |chunks|
      invariant 0 <= i <= |chunks| && offset == BaseOf(ends, i) <= |text|
      invariant text[..offset] == source[..offset]
    {
      ChunkIsSlice(chunks, ends, i);
      var part := text[offset..ends[i]];
      if part != chunks[i] {
        return false;
      }
      Glue(text, 0, offset, ends[i]);
      Glue(source, 0, offset, ends[i]);
      offset := offset + |chunks[i]|;
      i := i + 1;
    }
    assert text[..|text|] == text && source[..|text|] == source;
    same := true;
  }

  lemma EndsBelow(chunks: seq<Text>, ends: seq<nat>, i: nat, j: nat)
    requires Indexed(chunks, ends) && i <= j < |ends|
    ensures ends[i] <= ends[j]
  {
    if i < j {
      EndsAscend(chunks, ends, i, j);
    }
  }

  lemma Glue(text: Text, i: nat, j: nat, k: nat)
    requires i <= j <= k <= |text|
    ensures text[i..j] + text[j..k] == text[i..k]
  {
  }
}
