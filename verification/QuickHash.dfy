/** The sampled quick hash: which bytes it reads and when it has read them all. */
module QuickHash {
  import opened Domain
  import opened Encoding

  const SAMPLE_BYTES: nat := 65536

  function WithoutRepeats(s: seq<nat>): seq<nat> {
    if |s| < 2 then s
    else if s[0] == s[1] then WithoutRepeats(s[1..])
    else [s[0]] + WithoutRepeats(s[1..])
  }

  /** Head, middle and tail, which already are in order, without repetition. */
  function SampleOffsets(size: nat): seq<nat> {
    if size <= SAMPLE_BYTES then [0]
    else WithoutRepeats([0, SaturatingSub(size / 2, SAMPLE_BYTES / 2), SaturatingSub(size, SAMPLE_BYTES)])
  }

  function Wanted(size: nat, offset: nat): (r: nat)
    ensures r <= SAMPLE_BYTES
  {
    if SAMPLE_BYTES <= SaturatingSub(size, offset) then SAMPLE_BYTES else SaturatingSub(size, offset)
  }

  predicate Sampled(size: nat, at: nat) {
    exists k | 0 <= k < |SampleOffsets(size)| ::
      SampleOffsets(size)[k] <= at < SampleOffsets(size)[k] + Wanted(size, SampleOffsets(size)[k])
  }

  /** The offsets spelled out. */
  lemma OffsetsAre(size: nat)
    ensures SampleOffsets(size) ==
            if size <= SAMPLE_BYTES then [0]
            else if size == SAMPLE_BYTES + 1 then [0, 1]
            else [0, (size - SAMPLE_BYTES) / 2, size - SAMPLE_BYTES]
  {
    if size > SAMPLE_BYTES {
      var middle, tail := SaturatingSub(size / 2, SAMPLE_BYTES / 2), SaturatingSub(size, SAMPLE_BYTES);
      assert middle == (size - SAMPLE_BYTES) / 2;
      assert [0, middle, tail][1..] == [middle, tail] && [middle, tail][1..] == [tail];
      assert WithoutRepeats([tail]) == [tail];
      assert WithoutRepeats([middle, tail]) == [middle, tail];
    }
  }

  /** Windows are in bounds, increasing, and at most three. */
  lemma WindowsAreOrdered(size: nat, k: nat)
    requires k < |SampleOffsets(size)|
    ensures |SampleOffsets(size)| <= 3
    ensures SampleOffsets(size)[k] + Wanted(size, SampleOffsets(size)[k]) <= size
    ensures k > 0 ==> SampleOffsets(size)[k - 1] < SampleOffsets(size)[k]
  {
    OffsetsAre(size);
  }

  /** The windows cover every byte exactly for files of up to three samples. */
  lemma CoversAllIff(size: nat)
    ensures (forall at | 0 <= at < size :: Sampled(size, at)) <==> size <= 3 * SAMPLE_BYTES
  {
    OffsetsAre(size);
    if size <= 3 * SAMPLE_BYTES {
      forall at | 0 <= at < size ensures Sampled(size, at) {
        var offsets := SampleOffsets(size);
        var k := if at < SAMPLE_BYTES then 0 else if at >= size - SAMPLE_BYTES then |offsets| - 1 else 1;
        assert offsets[k] <= at < offsets[k] + Wanted(size, offsets[k]);
      }
    } else {
      assert !Sampled(size, SAMPLE_BYTES) || !Sampled(size, size - SAMPLE_BYTES - 1);
    }
  }

  // ---------------------------------------------------------------- what is hashed

  function Window(content: Bytes, offset: nat): Bytes
    requires offset + Wanted(|content|, offset) <= |content|
  {
    LittleEndian(offset, 8) + LittleEndian(Wanted(|content|, offset), 8) + content[offset..offset + Wanted(|content|, offset)]
  }

  function Windows(content: Bytes, offsets: seq<nat>): Bytes
    requires forall k | 0 <= k < |offsets| :: offsets[k] + Wanted(|content|, offsets[k]) <= |content|
  {
    if offsets == [] then []
    else Windows(content, offsets[..|offsets| - 1]) + Window(content, offsets[|offsets| - 1])
  }

  predicate InBounds(size: nat, offsets: seq<nat>) {
    forall k | 0 <= k < |offsets| :: offsets[k] + Wanted(size, offsets[k]) <= size
  }

  lemma OffsetsInBounds(size: nat)
    ensures InBounds(size, SampleOffsets(size))
  {
    forall k | 0 <= k < |SampleOffsets(size)| ensures SampleOffsets(size)[k] + Wanted(size, SampleOffsets(size)[k]) <= size {
      WindowsAreOrdered(size, k);
    }
  }

  /** Everything the hasher is fed: the size, then every window with its offset and length. */
  function Preimage(content: Bytes): Bytes {
    OffsetsInBounds(|content|);
    LittleEndian(|content|, 8) + Windows(content, SampleOffsets(|content|))
  }

  lemma WindowIsFull(size: nat, k: nat)
    requires k < |SampleOffsets(size)|
    ensures Wanted(size, SampleOffsets(size)[k]) == if size < SAMPLE_BYTES then size else SAMPLE_BYTES
  {
    OffsetsAre(size);
  }

  /** Read the windows one after the other, and count the content bytes read. */
  method Sample(content: Bytes) returns (preimage: Bytes, read: nat)
    ensures preimage == Preimage(content)
    ensures read == if |content| <= SAMPLE_BYTES then |content|
                    else if |content| == SAMPLE_BYTES + 1 then 2 * SAMPLE_BYTES else 3 * SAMPLE_BYTES
  {
    hide LittleEndian, SampleOffsets, Wanted;
    OffsetsInBounds(|content|);
    var offsets := SampleOffsets(|content|);
    var each := if |content| < SAMPLE_BYTES then |content| else SAMPLE_BYTES;
    assert |offsets| == (if |content| <= SAMPLE_BYTES then 1 else if |content| == SAMPLE_BYTES + 1 then 2 else 3) by {
      OffsetsAre(|content|);
    }
    preimage, read := LittleEndian(|content|, 8), 0;
    assert offsets[..0] == [];
    for i := 0 to |offsets|
      invariant preimage == LittleEndian(|content|, 8) + Windows(content, offsets[..i])
      invariant read == i * each
    {
      WindowIsFull(|content|, i);
      var wanted := Wanted(|content|, offsets[i]);
      var buffer := content[offsets[i]..offsets[i] + wanted];
      assert offsets[..i + 1][..i] == offsets[..i];
      preimage := preimage + (LittleEndian(offsets[i], 8) + LittleEndian(wanted, 8) + buffer);
      read := read + wanted;
    }
    assert offsets[..|offsets|] == offsets;
  }

  lemma {:induction false} EqualWindows(a: Bytes, b: Bytes, offsets: seq<nat>, k: nat)
    requires |a| == |b| && InBounds(|a|, offsets) && k < |offsets|
    requires Windows(a, offsets) == Windows(b, offsets)
    ensures a[offsets[k]..offsets[k] + Wanted(|a|, offsets[k])] == b[offsets[k]..offsets[k] + Wanted(|a|, offsets[k])]
  {
    hide LittleEndian, Wanted;
    var init, last := offsets[..|offsets| - 1], offsets[|offsets| - 1];
    WindowsLength(a, b, init);
    Cut(Windows(a, init), Window(a, last), Windows(b, init), Window(b, last));
    if k == |init| {
      var p := LittleEndian(last, 8) + LittleEndian(Wanted(|a|, last), 8);
      Cut(p, a[last..last + Wanted(|a|, last)], p, b[last..last + Wanted(|a|, last)]);
    } else {
      EqualWindows(a, b, init, k);
    }
  }

  lemma {:induction false} WindowsLength(a: Bytes, b: Bytes, offsets: seq<nat>)
    requires |a| == |b| && InBounds(|a|, offsets)
    ensures |Windows(a, offsets)| == |Windows(b, offsets)|
  {
    if offsets != [] {
      WindowsLength(a, b, offsets[..|offsets| - 1]);
    }
  }

  lemma SameByte(a: Bytes, b: Bytes, offset: nat, w: nat, at: nat)
    requires |a| == |b| && offset <= at < offset + w <= |a| && a[offset..offset + w] == b[offset..offset + w]
    ensures a[at] == b[at]
  {
    assert a[offset..offset + w][at - offset] == b[offset..offset + w][at - offset];
  }

  /** Up to three samples the quick hash binds the whole content: equal pre-images, equal files. */
  lemma SmallFilesAreBound(a: Bytes, b: Bytes)
    requires |a| <= 3 * SAMPLE_BYTES && |b| < U64_LIMIT && Preimage(a) == Preimage(b)
    ensures a == b
  {
    hide LittleEndian, Windows, SampleOffsets, Wanted;
    OffsetsInBounds(|a|);
    OffsetsInBounds(|b|);
    var offsets := SampleOffsets(|a|);
    Cut(LittleEndian(|a|, 8), Windows(a, offsets), LittleEndian(|b|, 8), Windows(b, SampleOffsets(|b|)));
    LengthsEqual(a, b);
    CoversAllIff(|a|);
    forall at | 0 <= at < |a| ensures a[at] == b[at] {
      assert Sampled(|a|, at);
      var k :| 0 <= k < |offsets| && offsets[k] <= at < offsets[k] + Wanted(|a|, offsets[k]);
      EqualWindows(a, b, offsets, k);
      SameByte(a, b, offsets[k], Wanted(|a|, offsets[k]), at);
    }
  }

  lemma LengthsEqual(a: Bytes, b: Bytes)
    requires |a| < U64_LIMIT && |b| < U64_LIMIT && LittleEndian(|a|, 8) == LittleEndian(|b|, 8)
    ensures |a| == |b|
  {
    LengthPrefixInjective(a, b);
  }
}
