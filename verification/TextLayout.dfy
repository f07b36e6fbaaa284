/**
 * The byte layout of a text column (src/storage/column_buffer.cpp): one blob, and the start of
 * every string narrowed to 32 bits. Everything here is about values; the buffer object is in
 * ColumnBuffer.dfy.
 */
module TextLayout {

  const UINT32: nat := 0x1_0000_0000

  type Uint32 = x: int | 0 <= x < 0x1_0000_0000

  /** The blob that holds `texts`. */
  function Concat(texts: seq<string>): string {
    if texts == [] then "" else Concat(texts[..|texts| - 1]) + texts[|texts| - 1]
  }

  /** Where string `i` really starts; `Start(texts, |texts|)` is the length of the blob. */
  function Start(texts: seq<string>, i: nat): nat
    requires i <= |texts|
  {
    |Concat(texts[..i])|
  }

  /** What the buffer stores: each start, modulo 2^32. */
  function StoredOffsets(texts: seq<string>): seq<Uint32> {
    seq(|texts|, i requires 0 <= i < |texts| => Start(texts, i) % UINT32)
  }

  /** `end - start` in `at`, in unsigned 32-bit arithmetic. */
  function ReadLength(offsets: seq<Uint32>, bytes: string, i: nat): nat
    requires i < |offsets|
  {
    ((if i + 1 < |offsets| then offsets[i + 1] else |bytes| % UINT32) - offsets[i]) % UINT32
  }

  /** `at(i)`. */
  function ReadText(offsets: seq<Uint32>, bytes: string, i: nat): string
    requires i < |offsets|
    requires offsets[i] + ReadLength(offsets, bytes, i) <= |bytes|
  {
    bytes[offsets[i]..offsets[i] + ReadLength(offsets, bytes, i)]
  }

  /** String `i` starts below 2^32 and is itself shorter than 2^32 bytes. */
  predicate InRange(texts: seq<string>, i: nat)
    requires i < |texts|
  {
    Start(texts, i) < UINT32 && |texts[i]| < UINT32
  }

  /** Wherever an empty string stands, it is read as empty. */
  predicate Fits(texts: seq<string>, i: nat)
    requires i < |texts|
  {
    texts[i] == "" || InRange(texts, i)
  }

  predicate AllFit(texts: seq<string>) {
    forall i | 0 <= i < |texts| :: Fits(texts, i)
  }

  lemma {:induction false} ConcatAppend(a: seq<string>, b: seq<string>)
    ensures Concat(a + b) == Concat(a) + Concat(b)
  {
    if b == [] {
      assert a + b == a;
    } else {
      ConcatAppend(a, b[..|b| - 1]);
      assert (a + b)[..|a + b| - 1] == a + b[..|b| - 1];
    }
  }

  /** String `i` occupies its true range of the blob. */
  lemma TextAtStart(texts: seq<string>, i: nat)
    requires i < |texts|
    ensures Start(texts, i + 1) == Start(texts, i) + |texts[i]| <= |Concat(texts)|
    ensures Concat(texts)[Start(texts, i)..Start(texts, i + 1)] == texts[i]
  {
    assert texts[..i + 1][..i] == texts[..i];
    assert texts == texts[..i + 1] + texts[i + 1..];
    ConcatAppend(texts[..i + 1], texts[i + 1..]);
  }

  /**
   * Whatever was appended, a read stays inside the blob, and it covers the true range of the
   * string exactly when the string is in range.
   */
  lemma ReadRange(texts: seq<string>, i: nat)
    requires i < |texts|
    ensures StoredOffsets(texts)[i] + ReadLength(StoredOffsets(texts), Concat(texts), i) <= |Concat(texts)|
    ensures StoredOffsets(texts)[i] == Start(texts, i)
        && ReadLength(StoredOffsets(texts), Concat(texts), i) == |texts[i]|
      <==> InRange(texts, i)
  {
    TextAtStart(texts, i);
    var start, next := Start(texts, i), Start(texts, i + 1);
    if i + 1 == |texts| {
      assert texts[..i + 1] == texts;
    }
    assert ReadLength(StoredOffsets(texts), Concat(texts), i) == (next % UINT32 - start % UINT32) % UINT32;
    WrapDifference(start, next);
  }

  lemma WrapDifference(a: nat, b: nat)
    requires a <= b
    ensures (b % UINT32 - a % UINT32) % UINT32 == (b - a) % UINT32
    ensures a % UINT32 + (b - a) % UINT32 <= b
    ensures a % UINT32 == a <==> a < UINT32
    ensures (b - a) % UINT32 == b - a <==> b - a < UINT32
  {
  }

  /** String `i` is read back unchanged. */
  predicate ReadsBack(texts: seq<string>, i: nat)
    requires i < |texts|
  {
    ReadRange(texts, i);
    ReadText(StoredOffsets(texts), Concat(texts), i) == texts[i]
  }

  /** Reading string `i` gives the bytes from its stored start, as many as the wrapped difference says. */
  lemma ReadLengthWraps(texts: seq<string>, i: nat)
    requires i < |texts|
    ensures StoredOffsets(texts)[i] == Start(texts, i) % UINT32
    ensures ReadLength(StoredOffsets(texts), Concat(texts), i) == |texts[i]| % UINT32
  {
    TextAtStart(texts, i);
    if i + 1 == |texts| {
      assert texts[..i + 1] == texts;
    }
    WrapDifference(Start(texts, i), Start(texts, i + 1));
  }

  /** A string that fits is read back unchanged. */
  lemma ReadBack(texts: seq<string>, i: nat)
    requires i < |texts| && Fits(texts, i)
    ensures ReadsBack(texts, i)
  {
    ReadRange(texts, i);
    ReadLengthWraps(texts, i);
    TextAtStart(texts, i);
  }

  /** A string of 2^32 bytes or more is never read back. */
  lemma LongIsNeverReadBack(texts: seq<string>, i: nat)
    requires i < |texts| && |texts[i]| >= UINT32
    ensures !ReadsBack(texts, i)
  {
    ReadRange(texts, i);
    ReadLengthWraps(texts, i);
  }

  // ----- when reading back does not depend on luck -----

  predicate SameLengths(texts: seq<string>, other: seq<string>) {
    |texts| == |other| && forall i | 0 <= i < |texts| :: |texts[i]| == |other[i]|
  }

  lemma {:induction false} SameStarts(texts: seq<string>, other: seq<string>, i: nat)
    requires SameLengths(texts, other) && i <= |texts|
    ensures Start(texts, i) == Start(other, i)
  {
    if i != 0 {
      SameStarts(texts, other, i - 1);
      TextAtStart(texts, i - 1);
      TextAtStart(other, i - 1);
    }
  }

  lemma SameFits(texts: seq<string>, other: seq<string>, i: nat)
    requires SameLengths(texts, other) && i < |texts|
    ensures Fits(texts, i) <==> Fits(other, i)
  {
    SameStarts(texts, other, i);
  }

  function Fill(c: char, n: nat): string {
    seq(n, i => c)
  }

  /** Strings of the same lengths that spell out where string `i` is. */
  function Marked(texts: seq<string>, i: nat): (marked: seq<string>)
    ensures SameLengths(texts, marked)
  {
    seq(|texts|, k requires 0 <= k < |texts| => Fill(if k == i then '1' else '0', |texts[k]|))
  }

  lemma {:induction false} MarkedBefore(texts: seq<string>, i: nat, n: nat)
    requires n <= i < |texts|
    ensures forall j | 0 <= j < |Concat(Marked(texts, i)[..n])| :: Concat(Marked(texts, i)[..n])[j] == '0'
  {
    if n != 0 {
      MarkedBefore(texts, i, n - 1);
      assert Marked(texts, i)[..n][..n - 1] == Marked(texts, i)[..n - 1];
    }
  }

  /** A string that does not fit is misread for some bytes of the same lengths. */
  lemma MarkedIsMisread(texts: seq<string>, i: nat)
    requires i < |texts| && !Fits(texts, i)
    ensures !ReadsBack(Marked(texts, i), i)
  {
    var marked := Marked(texts, i);
    SameStarts(texts, marked, i);
    if |texts[i]| >= UINT32 {
      LongIsNeverReadBack(marked, i);
    } else {
      ReadRange(marked, i);
      ReadLengthWraps(marked, i);
      MarkedBefore(texts, i, i);
      StoredStartIsEarlier(marked, i);
      assert marked[i][0] == '1';
    }
  }

  lemma StoredStartIsEarlier(texts: seq<string>, i: nat)
    requires i < |texts| && Start(texts, i) >= UINT32
    ensures StoredOffsets(texts)[i] < Start(texts, i) <= |Concat(texts)|
    ensures Concat(texts)[StoredOffsets(texts)[i]] == Concat(texts[..i])[StoredOffsets(texts)[i]]
  {
    assert texts == texts[..i] + texts[i..];
    ConcatAppend(texts[..i], texts[i..]);
  }

  /**
   * Exactly when string `i` is read back: all strings of these lengths have their string `i` read
   * back if and only if it is empty, or starts below 2^32 and is shorter than 2^32.
   */
  lemma ReadBackIff(texts: seq<string>, i: nat)
    requires i < |texts|
    ensures (forall other | SameLengths(texts, other) :: ReadsBack(other, i)) <==> Fits(texts, i)
  {
    if Fits(texts, i) {
      forall other | SameLengths(texts, other) ensures ReadsBack(other, i) {
        SameFits(texts, other, i);
        ReadBack(other, i);
      }
    } else {
      MarkedIsMisread(texts, i);
    }
  }

  /** One string of 2^32 bytes reads back as empty. */
  lemma WrappedReadIsWrong(text: string)
    requires |text| == UINT32
    ensures ReadLength(StoredOffsets([text]), Concat([text]), 0) == 0
    ensures StoredOffsets([text])[0] + 0 <= |Concat([text])|
    ensures ReadText(StoredOffsets([text]), Concat([text]), 0) == "" != text
  {
    assert [text][..0] == [];
    assert Concat([text]) == text;
  }

  /** Keeping the whole blob below 2^32 bytes is enough for every string to fit. */
  lemma SmallBlobFits(texts: seq<string>)
    requires |Concat(texts)| < UINT32
    ensures AllFit(texts)
  {
    forall i | 0 <= i < |texts| ensures Fits(texts, i) {
      TextAtStart(texts, i);
    }
  }

  /** Strings that fit keep fitting when later ones are dropped, and stay put when some are added. */
  lemma FitsPrefix(texts: seq<string>, n: nat)
    requires n <= |texts|
    ensures forall i | 0 <= i < n :: Start(texts[..n], i) == Start(texts, i)
    ensures AllFit(texts) ==> AllFit(texts[..n])
  {
    forall i | 0 <= i < n ensures Start(texts[..n], i) == Start(texts, i) {
      assert texts[..n][..i] == texts[..i];
    }
    assert forall i | 0 <= i < n :: Fits(texts, i) ==> Fits(texts[..n], i);
  }

  // ----- batches -----

  /** A batch of `n` strings given by offsets and bytes, as validation accepts it. */
  predicate ValidOffsets(offsets: seq<Uint32>, bytes: string, n: nat) {
    && |offsets| == n + 1
    && offsets[0] == 0
    && offsets[n] <= |bytes|
    && forall i, j | 0 <= i <= j <= n :: offsets[i] <= offsets[j]
  }

  /** The strings the offsets delimit. */
  function BatchTexts(offsets: seq<Uint32>, bytes: string, n: nat): seq<string>
    requires ValidOffsets(offsets, bytes, n)
  {
    seq(n, i requires 0 <= i < n => bytes[offsets[i]..offsets[i + 1]])
  }

  /** The strings a buffer gains when it copies the whole blob: the last one runs to its end. */
  function AbsorbedTexts(offsets: seq<Uint32>, bytes: string, n: nat): (texts: seq<string>)
    requires ValidOffsets(offsets, bytes, n)
    ensures |texts| == n
  {
    seq(n, i requires 0 <= i < n => bytes[offsets[i]..if i + 1 < n then offsets[i + 1] else |bytes|])
  }

  /** The two agree exactly when the offsets end where the blob ends. */
  lemma AbsorbedIffTight(offsets: seq<Uint32>, bytes: string, n: nat)
    requires 0 < n && ValidOffsets(offsets, bytes, n)
    ensures AbsorbedTexts(offsets, bytes, n) == BatchTexts(offsets, bytes, n) <==> offsets[n] == |bytes|
  {
    var absorbed, batch := AbsorbedTexts(offsets, bytes, n), BatchTexts(offsets, bytes, n);
    assert |absorbed[n - 1]| == |bytes| - offsets[n - 1] && |batch[n - 1]| == offsets[n] - offsets[n - 1];
  }

  lemma {:induction false} AbsorbedPrefix(offsets: seq<Uint32>, bytes: string, n: nat, i: nat)
    requires 0 < n && ValidOffsets(offsets, bytes, n) && i <= n
    ensures Concat(AbsorbedTexts(offsets, bytes, n)[..i]) == bytes[..if i < n then offsets[i] else |bytes|]
  {
    var texts := AbsorbedTexts(offsets, bytes, n);
    if i != 0 {
      AbsorbedPrefix(offsets, bytes, n, i - 1);
      assert texts[..i][..i - 1] == texts[..i - 1];
    }
  }

  /** The offsets of a batch moved behind a blob of `base` bytes and narrowed to 32 bits. */
  function Rebased(base: nat, offsets: seq<Uint32>, n: nat): seq<Uint32>
    requires n <= |offsets|
  {
    seq(n, i requires 0 <= i < n => (base + offsets[i]) % UINT32)
  }

  /** The strings before and after a split keep their own starts, the latter shifted by the blob. */
  lemma StartAppend(texts: seq<string>, more: seq<string>, i: nat)
    requires i <= |more|
    ensures Start(texts + more, |texts| + i) == |Concat(texts)| + Start(more, i)
  {
    assert (texts + more)[..|texts| + i] == texts + more[..i];
    ConcatAppend(texts, more[..i]);
  }

  lemma AbsorbedStart(texts: seq<string>, offsets: seq<Uint32>, bytes: string, n: nat, i: nat)
    requires 0 < n && ValidOffsets(offsets, bytes, n) && i < n
    ensures Start(texts + AbsorbedTexts(offsets, bytes, n), |texts| + i) == |Concat(texts)| + offsets[i]
  {
    hide Concat;
    AbsorbedPrefix(offsets, bytes, n, i);
    StartAppend(texts, AbsorbedTexts(offsets, bytes, n), i);
  }

  lemma AbsorbedOffset(texts: seq<string>, offsets: seq<Uint32>, bytes: string, n: nat, k: nat)
    requires 0 < n && ValidOffsets(offsets, bytes, n) && k < |texts| + n
    ensures StoredOffsets(texts + AbsorbedTexts(offsets, bytes, n))[k]
      == (StoredOffsets(texts) + Rebased(|Concat(texts)|, offsets, n))[k]
  {
    var absorbed := AbsorbedTexts(offsets, bytes, n);
    hide Concat, ValidOffsets, AbsorbedTexts;
    if k < |texts| {
      assert (texts + absorbed)[..k] == texts[..k];
    } else {
      hide Start;
      AbsorbedStart(texts, offsets, bytes, n, k - |texts|);
    }
  }

  /** Copying the blob and rebasing the offsets is appending the absorbed strings. */
  lemma AppendAbsorbed(texts: seq<string>, offsets: seq<Uint32>, bytes: string, n: nat)
    requires 0 < n && ValidOffsets(offsets, bytes, n)
    ensures Concat(texts + AbsorbedTexts(offsets, bytes, n)) == Concat(texts) + bytes
    ensures StoredOffsets(texts + AbsorbedTexts(offsets, bytes, n))
      == StoredOffsets(texts) + Rebased(|Concat(texts)|, offsets, n)
  {
    var absorbed := AbsorbedTexts(offsets, bytes, n);
    assert Concat(texts + absorbed) == Concat(texts) + bytes by {
      ConcatAppend(texts, absorbed);
      AbsorbedPrefix(offsets, bytes, n, n);
      assert absorbed[..n] == absorbed;
    }
    forall k | 0 <= k < |texts| + n
      ensures StoredOffsets(texts + absorbed)[k] == (StoredOffsets(texts) + Rebased(|Concat(texts)|, offsets, n))[k]
    {
      AbsorbedOffset(texts, offsets, bytes, n, k);
    }
  }

  /** Pushing one string. */
  lemma AppendOne(texts: seq<string>, text: string)
    ensures Concat(texts + [text]) == Concat(texts) + text
    ensures StoredOffsets(texts + [text]) == StoredOffsets(texts) + [|Concat(texts)| % UINT32]
  {
    var all := texts + [text];
    assert all[..|texts|] == texts;
    FitsPrefix(all, |texts|);
  }

  /** The strings with bytes added to the last one. */
  function LengthenLast(texts: seq<string>, more: string): (r: seq<string>)
    requires texts != []
    ensures |r| == |texts|
  {
    texts[|texts| - 1 := texts[|texts| - 1] + more]
  }

  /** Copying a blob without any offset lengthens the last string. */
  lemma AppendNoRows(texts: seq<string>, more: string)
    requires texts != []
    ensures Concat(LengthenLast(texts, more)) == Concat(texts) + more
    ensures StoredOffsets(LengthenLast(texts, more)) == StoredOffsets(texts)
  {
    var last := |texts| - 1;
    var longer := LengthenLast(texts, more);
    assert longer[..last] == texts[..last];
    forall i | 0 <= i < |texts| ensures Start(longer, i) == Start(texts, i) {
      assert longer[..i] == texts[..i];
    }
  }
}
