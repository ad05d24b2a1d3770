/**
 How values travel: packed into little-endian units of a fixed width, and moved over a socket by
 calls that may each transfer only part of what is left.
 */
module Wire {
  import opened Bits
  import opened Words
  import opened Chunks

  type Byte = b: int | 0 <= b < 256

  // ----- little-endian units

  function Pow256(k: nat): (r: nat)
    ensures r >= 1
  {
    if k == 0 then 1 else 256 * Pow256(k - 1)
  }

  /** The lowest `width` bytes of `v`, lowest first. */
  function LowBytes(v: nat, width: nat): (r: seq<Byte>)
    ensures |r| == width
  {
    if width == 0 then [] else [v % 256] + LowBytes(v / 256, width - 1)
  }

  function FromBytes(bytes: seq<Byte>): nat {
    if bytes == [] then 0 else bytes[0] + 256 * FromBytes(bytes[1..])
  }

  /** Byte `i` of a value has the weight `256^i`. */
  lemma {:induction false} LowByteAt(v: nat, width: nat, i: nat)
    requires i < width
    ensures LowBytes(v, width)[i] == v / Pow256(i) % 256
    decreases i
  {
    if i > 0 {
      LowByteAt(v / 256, width - 1, i - 1);
      DivDiv(v, 256, Pow256(i - 1));
    }
  }

  /** A byte string stands for the sum of its bytes with these weights: the last one adds its own. */
  lemma {:induction false} FromBytesSnoc(bytes: seq<Byte>, b: Byte)
    ensures FromBytes(bytes + [b]) == FromBytes(bytes) + Pow256(|bytes|) * b
  {
    if bytes == [] {
      assert [b][1..] == [];
      assert [] + [b] == [b];
    } else {
      FromBytesSnoc(bytes[1..], b);
      assert (bytes + [b])[1..] == bytes[1..] + [b];
      WeightUp(Pow256(|bytes| - 1), b);
    }
  }

  lemma WeightUp(w: nat, b: nat)
    ensures 256 * (w * b) == (256 * w) * b
  {
  }

  /** Reading back the low bytes gives the value modulo the range of the unit. */
  lemma {:induction false} LowBytesValue(v: nat, width: nat)
    ensures FromBytes(LowBytes(v, width)) == v % Pow256(width)
    decreases width
  {
    if width > 0 {
      LowBytesValue(v / 256, width - 1);
      var m := Pow256(width - 1);
      var q, r := (v / 256) / m, (v / 256) % m;
      assert v == 256 * (m * q + r) + v % 256;
      assert 256 * (m * q + r) == (256 * m) * q + 256 * r by { Regroup(m, q, r); }
      DivModUnique(v, 256 * m, q, 256 * r + v % 256);
    } else {
      DivModUnique(v, 1, v, 0);
    }
  }

  lemma Regroup(m: int, q: int, r: int)
    ensures 256 * (m * q + r) == (256 * m) * q + 256 * r
  {
  }

  function Packed(values: seq<nat>, width: nat): (r: seq<Byte>)
    ensures |r| == |values| * width
  {
    if values == [] then []
    else
      assert (|values| - 1) * width + width == |values| * width;
      Packed(values[..|values| - 1], width) + LowBytes(values[|values| - 1], width)
  }

  function Unpacked(bytes: seq<Byte>, width: nat, amount: nat): (r: seq<nat>)
    requires |bytes| == amount * width
    ensures |r| == amount
  {
    if amount == 0 then []
    else
      assert (amount - 1) * width + width == amount * width;
      Unpacked(bytes[..(amount - 1) * width], width, amount - 1) + [FromBytes(bytes[(amount - 1) * width..])]
  }

  /** The unit of value `i` starts at a place that depends on `i` alone. */
  lemma {:induction false} PackedFrom(values: seq<nat>, width: nat, i: nat, at: nat, b: nat)
    requires i < |values| && b < width && at == i * width
    ensures at + b < |Packed(values, width)| && Packed(values, width)[at + b] == LowBytes(values[i], width)[b]
    decreases |values|
  {
    var m := |values| - 1;
    PackedSplit(values, width);
    hide LowBytes, Packed;
    if i < m {
      PackedFrom(values[..m], width, i, at, b);
      FrontOf(Packed(values[..m], width), LowBytes(values[m], width), at + b);
    } else {
      BackOf(Packed(values[..m], width), LowBytes(values[m], width), b);
    }
  }

  /** Byte `b` of value `i` is at `i * width + b` of the message. */
  lemma PackedAt(values: seq<nat>, width: nat, i: nat, b: nat)
    requires i < |values| && b < width
    ensures i * width + b < |Packed(values, width)|
    ensures Packed(values, width)[i * width + b] == values[i] / Pow256(b) % 256
  {
    hide LowBytes, Packed, Pow256;
    PackedFrom(values, width, i, i * width, b);
    LowByteAt(values[i], width, b);
  }

  lemma PackedSplit(values: seq<nat>, width: nat)
    requires values != []
    ensures var m := |values| - 1;
            && Packed(values, width) == Packed(values[..m], width) + LowBytes(values[m], width)
            && |Packed(values[..m], width)| == m * width
  {
  }

  lemma FrontOf(front: seq<Byte>, back: seq<Byte>, k: nat)
    requires k < |front|
    ensures k < |front + back| && (front + back)[k] == front[k]
  {
  }

  lemma BackOf(front: seq<Byte>, back: seq<Byte>, k: nat)
    requires k < |back|
    ensures |front| + k < |front + back| && (front + back)[|front| + k] == back[k]
  {
  }

  /** A packed message is read back value by value modulo the range of the unit. */
  lemma {:induction false} PackUnpack(values: seq<nat>, width: nat)
    ensures |Unpacked(Packed(values, width), width, |values|)| == |values|
    ensures forall i | 0 <= i < |values| ::
              Unpacked(Packed(values, width), width, |values|)[i] == values[i] % Pow256(width)
  {
    if values != [] {
      var m := |values| - 1;
      var bytes := Packed(values, width);
      PackedSplit(values, width);
      UnpackedSplit(bytes, width, |values|);
      PackUnpack(values[..m], width);
      LowBytesValue(values[m], width);
      hide Packed, LowBytes, Unpacked, FromBytes;
      assert bytes[..m * width] == Packed(values[..m], width);
      assert bytes[m * width..] == LowBytes(values[m], width);
    }
  }

  lemma UnpackedSplit(bytes: seq<Byte>, width: nat, amount: nat)
    requires amount > 0 && |bytes| == amount * width
    ensures var cut := (amount - 1) * width;
            && cut <= |bytes|
            && Unpacked(bytes, width, amount) == Unpacked(bytes[..cut], width, amount - 1) + [FromBytes(bytes[cut..])]
  {
    assert (amount - 1) * width + width == amount * width;
    hide FromBytes;
  }

  /** The round trip is exact for exactly those messages whose values all fit into a unit. */
  lemma RoundTripExact(values: seq<nat>, width: nat)
    ensures Unpacked(Packed(values, width), width, |values|) == values
       <==> forall i | 0 <= i < |values| :: values[i] < Pow256(width)
  {
    hide Packed, Unpacked, Pow256;
    PackUnpack(values, width);
    var back := Unpacked(Packed(values, width), width, |values|);
    forall i | 0 <= i < |values| ensures back[i] == values[i] <==> values[i] < Pow256(width) {
      ModIsSame(values[i], Pow256(width));
    }
  }

  lemma ModIsSame(v: nat, m: nat)
    requires m > 0
    ensures v % m == v <==> v < m
  {
    if v < m {
      DivModUnique(v, m, 0, v);
    }
  }

  // ----- one chunk of big integers

  /** The bytes `mpz_export` writes: as many as the value needs, none for zero. */
  function Significant(v: nat): (r: seq<Byte>) {
    if v == 0 then [] else [v % 256] + Significant(v / 256)
  }

  /** Its byte `i` has the weight `256^i` too. */
  lemma {:induction false} SignificantAt(v: nat, i: nat)
    requires i < |Significant(v)|
    ensures Significant(v)[i] == v / Pow256(i) % 256
    decreases i
  {
    if i > 0 {
      SignificantAt(v / 256, i - 1);
      DivDiv(v, 256, Pow256(i - 1));
    }
  }

  function Zeros(n: nat): (r: seq<Byte>)
    ensures |r| == n
  {
    seq(n, i => 0)
  }

  /** A value below the range of a unit, exported into a cleared unit, is its low bytes. */
  lemma {:induction false} SignificantPadded(v: nat, width: nat)
    requires v < Pow256(width)
    ensures |Significant(v)| <= width
    ensures LowBytes(v, width) == Significant(v) + Zeros(width - |Significant(v)|)
    decreases width
  {
    if v == 0 {
      LowBytesOfZero(width);
      assert [] + Zeros(width) == Zeros(width);
    } else {
      QuotientBelow(v, Pow256(width - 1));
      SignificantPadded(v / 256, width - 1);
      var s, z := Significant(v / 256), Zeros(width - 1 - |Significant(v / 256)|);
      assert LowBytes(v, width) == [v % 256] + (s + z);
      assert Significant(v) == [v % 256] + s;
      hide Pow256, Zeros, LowBytes, Significant;
      assert [v % 256] + (s + z) == ([v % 256] + s) + z;
    }
  }

  lemma {:induction false} LowBytesOfZero(width: nat)
    ensures LowBytes(0, width) == Zeros(width)
    decreases width
  {
    if width > 0 {
      LowBytesOfZero(width - 1);
      assert [0] + Zeros(width - 1) == Zeros(width);
    }
  }

  method MpzExport(buffer: array<Byte>, pointer: nat, value: nat)
    requires pointer + |Significant(value)| <= buffer.Length
    modifies buffer
    ensures forall k | 0 <= k < buffer.Length :: buffer[k] ==
              if pointer <= k < pointer + |Significant(value)| then Significant(value)[k - pointer] else old(buffer[k])
  {
    ghost var all := Significant(value);
    var v, n := value, 0;
    while v > 0
      invariant v >= 0 && n <= |all| && all[n..] == Significant(v)
      invariant forall k | 0 <= k < buffer.Length :: buffer[k] ==
                  if pointer <= k < pointer + n then all[k - pointer] else old(buffer[k])
    {
      assert all[n..][0] == v % 256 && all[n..][1..] == Significant(v / 256);
      assert all[n] == v % 256 && all[n + 1..] == all[n..][1..];
      buffer[pointer + n] := v % 256;
      v := v / 256;
      n := n + 1;
    }
  }

  predicate FitsUnit(values: seq<nat>, width: nat) {
    forall i | 0 <= i < |values| :: values[i] < Pow256(width)
  }

  lemma UnitFits(i: nat, amount: nat, width: nat)
    requires i < amount
    ensures i * width + width <= amount * width
  {
    assert (amount - i - 1) * width >= 0;
    assert amount * width == i * width + width + (amount - i - 1) * width;
  }

  lemma PackedNext(values: seq<nat>, k: nat, width: nat)
    requires k < |values|
    ensures Packed(values[..k + 1], width) == Packed(values[..k], width) + LowBytes(values[k], width)
  {
    assert values[..k + 1][..k] == values[..k];
  }

  lemma PackedNone(values: seq<nat>, width: nat)
    requires values == []
    ensures Packed(values, width) == []
  {
  }

  // ----- what the exports make of a cleared buffer, values of any size included

  function Overlaid(buffer: seq<Byte>, at: nat, bytes: seq<Byte>): (r: seq<Byte>)
    requires at + |bytes| <= |buffer|
    ensures |r| == |buffer|
    ensures forall k | 0 <= k < |r| :: r[k] == if at <= k < at + |bytes| then bytes[k - at] else buffer[k]
  {
    buffer[..at] + bytes + buffer[at + |bytes|..]
  }

  /** The first `k` exports write nothing behind the buffer. */
  predicate InsideUpTo(values: seq<nat>, width: nat, k: nat)
    requires k <= |values|
  {
    forall i | 0 <= i < k :: InsideAt(values, width, i)
  }

  predicate InsideAt(values: seq<nat>, width: nat, i: nat)
    requires i < |values|
  {
    i * width + |Significant(values[i])| <= |values| * width
  }

  predicate Inside(values: seq<nat>, width: nat) {
    InsideUpTo(values, width, |values|)
  }

  lemma {:induction false} SignificantLength(v: nat, width: nat)
    ensures |Significant(v)| <= width <==> v < Pow256(width)
    decreases width
  {
    if width > 0 && v > 0 {
      SignificantLength(v / 256, width - 1);
      QuotientBelow(v, Pow256(width - 1));
    }
  }

  lemma QuotientBelow(v: nat, m: nat)
    ensures v < 256 * m <==> v / 256 < m
  {
  }

  /** All exports stay inside when each value fits into what is left of the buffer. */
  lemma InsideIff(values: seq<nat>, width: nat)
    ensures Inside(values, width) <==> forall i | 0 <= i < |values| :: FitsRest(values, width, i)
  {
    hide Pow256, Significant;
    forall i | 0 <= i < |values| ensures InsideAt(values, width, i) <==> FitsRest(values, width, i) {
      UnitFits(i, |values|, width);
      SignificantLength(values[i], |values| * width - i * width);
    }
  }

  predicate FitsRest(values: seq<nat>, width: nat, i: nat)
    requires i < |values|
  {
    UnitFits(i, |values|, width);
    values[i] < Pow256(|values| * width - i * width)
  }

  /** The buffer after `k` exports. An export longer than its unit goes on into the units behind it. */
  function Exported(values: seq<nat>, width: nat, k: nat): (r: seq<Byte>)
    requires k <= |values| && InsideUpTo(values, width, k)
    ensures |r| == |values| * width
  {
    if k == 0 then Zeros(|values| * width)
    else
      assert InsideAt(values, width, k - 1);
      Overlaid(Exported(values, width, k - 1), (k - 1) * width, Significant(values[k - 1]))
  }

  /** Values that fit do not get beyond their units. */
  lemma {:induction false} FittingExports(values: seq<nat>, width: nat, k: nat)
    requires k <= |values| && FitsUnit(values, width)
    ensures InsideUpTo(values, width, k) && k * width <= |values| * width
    ensures Exported(values, width, k) == Packed(values[..k], width) + Zeros(|values| * width - k * width)
    decreases k
  {
    hide Pow256, LowBytes, Significant, Packed;
    if k > 0 {
      FittingExports(values, width, k - 1);
      SignificantPadded(values[k - 1], width);
      UnitFits(k - 1, |values|, width);
      PackedNext(values, k - 1, width);
      assert (k - 1) * width + width == k * width;
      PlacedInZeros(Packed(values[..k - 1], width), |values| * width, Significant(values[k - 1]), width);
    } else {
      PackedNone(values[..0], width);
    }
  }

  lemma PlacedInZeros(front: seq<Byte>, size: nat, bytes: seq<Byte>, width: nat)
    requires |bytes| <= width && |front| + width <= size
    ensures Overlaid(front + Zeros(size - |front|), |front|, bytes)
         == front + (bytes + Zeros(width - |bytes|)) + Zeros(size - |front| - width)
  {
  }

  lemma {:induction false} FromBytesBelow(bytes: seq<Byte>)
    ensures FromBytes(bytes) < Pow256(|bytes|)
  {
    if bytes != [] {
      FromBytesBelow(bytes[1..]);
    }
  }

  /** Whatever was exported is read back unchanged exactly when every value fits its unit. */
  lemma ExportExact(values: seq<nat>, width: nat)
    requires Inside(values, width)
    ensures Unpacked(Exported(values, width, |values|), width, |values|) == values <==> FitsUnit(values, width)
  {
    hide Pow256, Packed, Unpacked, Exported, FromBytes, InsideUpTo;
    var bytes := Exported(values, width, |values|);
    if FitsUnit(values, width) {
      FittingExports(values, width, |values|);
      assert values[..|values|] == values;
      assert bytes == Packed(values, width);
      RoundTripExact(values, width);
    }
    forall i | 0 <= i < |values| ensures Unpacked(bytes, width, |values|)[i] < Pow256(width) {
      UnpackedAt(bytes, width, |values|, i);
      FromBytesBelow(bytes[i * width..i * width + width]);
    }
  }

  method ExportAt(buffer: array<Byte>, pointer: nat, value: nat)
    requires pointer + |Significant(value)| <= buffer.Length
    modifies buffer
    ensures buffer[..] == Overlaid(old(buffer[..]), pointer, Significant(value))
  {
    hide Significant;
    MpzExport(buffer, pointer, value);
  }

  /** Each value exported at its own unit of a cleared buffer. `inside` tells whether all exports stay
      in the buffer; the loop stops at the first that does not. */
  method PackChunk(data: seq<nat>, start: nat, amount: nat, unit_size: nat) returns (buffer: array<Byte>, inside: bool)
    requires start + amount <= |data|
    ensures fresh(buffer) && buffer.Length == amount * unit_size
    ensures var chunk := data[start..start + amount];
            && (inside <==> Inside(chunk, unit_size))
            && (inside ==> buffer[..] == Exported(chunk, unit_size, amount))
            && (FitsUnit(chunk, unit_size) ==> inside && buffer[..] == Packed(chunk, unit_size))
  {
    hide Pow256, Packed, Significant, Exported, FitsUnit, InsideAt, Overlaid;
    ghost var chunk := data[start..start + amount];
    if FitsUnit(chunk, unit_size) {
      FittingExports(chunk, unit_size, amount);
      assert chunk[..amount] == chunk;
    }
    var buffer_size := unit_size * amount;
    buffer := new Byte[buffer_size](_ => 0);
    var pointer := 0;
    inside := true;
    assert Exported(chunk, unit_size, 0) == Zeros(buffer_size) by { NothingExported(chunk, unit_size); }
    for i := start to start + amount
      invariant fresh(buffer) && buffer.Length == buffer_size && pointer == (i - start) * unit_size && inside
      invariant InsideUpTo(chunk, unit_size, i - start) && buffer[..] == Exported(chunk, unit_size, i - start)
    {
      assert data[i] == chunk[i - start];
      ExportPlace(chunk, unit_size, i - start, pointer);
      if pointer + |Significant(data[i])| > buffer_size {
        inside := false;
        break;
      }
      ExportAt(buffer, pointer, data[i]);
      ExportedNext(chunk, unit_size, i - start);
      pointer := pointer + unit_size;
    }
  }

  lemma NothingExported(values: seq<nat>, width: nat)
    ensures Exported(values, width, 0) == Zeros(|values| * width)
  {
  }

  lemma ExportPlace(values: seq<nat>, width: nat, k: nat, pointer: nat)
    requires k < |values| && pointer == k * width
    ensures InsideAt(values, width, k) <==> pointer + |Significant(values[k])| <= |values| * width
    ensures (k + 1) * width == pointer + width
  {
  }

  lemma ExportedNext(values: seq<nat>, width: nat, k: nat)
    requires k < |values| && InsideUpTo(values, width, k + 1)
    ensures InsideAt(values, width, k)
    ensures Exported(values, width, k + 1)
         == Overlaid(Exported(values, width, k), k * width, Significant(values[k]))
  {
  }

  lemma {:induction false} UnpackedAt(bytes: seq<Byte>, width: nat, amount: nat, k: nat)
    requires |bytes| == amount * width && k < amount
    ensures k * width + width <= |bytes|
    ensures Unpacked(bytes, width, amount)[k] == FromBytes(bytes[k * width..k * width + width])
  {
    hide FromBytes;
    UnitFits(k, amount, width);
    var m := amount - 1;
    UnitFits(m, amount, width);
    assert m * width + width == amount * width;
    var cut := m * width;
    if k < m {
      UnitFits(k, m, width);
      UnpackedAt(bytes[..cut], width, m, k);
      SubSlice(bytes, cut, k * width, k * width + width);
    } else {
      SubSlice(bytes, |bytes|, cut, cut + width);
    }
  }

  /** The unit at a pointer that has passed `k` units. */
  lemma UnitAtPointer(bytes: seq<Byte>, width: nat, amount: nat, k: nat, pointer: nat)
    requires |bytes| == amount * width && k < amount && pointer == k * width
    ensures (k + 1) * width == pointer + width <= |bytes|
    ensures Unpacked(bytes, width, amount)[k] == FromBytes(bytes[pointer..pointer + width])
  {
    UnpackedAt(bytes, width, amount, k);
  }

  lemma SubSlice(bytes: seq<Byte>, cut: nat, from: nat, to: nat)
    requires from <= to <= cut <= |bytes|
    ensures bytes[..cut][from..to] == bytes[from..to]
    ensures to == |bytes| ==> bytes[from..] == bytes[from..to]
  {
  }

  method UnpackChunk(decrypted: seq<Byte>, data: array<nat>, start: nat, amount: nat, unit_size: nat)
    requires start + amount <= data.Length && |decrypted| == amount * unit_size
    modifies data
    ensures data[start..start + amount] == Unpacked(decrypted, unit_size, amount)
    ensures forall k | 0 <= k < data.Length && !(start <= k < start + amount) :: data[k] == old(data[k])
  {
    hide Unpacked, FromBytes;
    var pointer := 0;
    for i := start to start + amount
      invariant pointer == (i - start) * unit_size
      invariant forall k | start <= k < i :: data[k] == Unpacked(decrypted, unit_size, amount)[k - start]
      invariant forall k | 0 <= k < data.Length && !(start <= k < i) :: data[k] == old(data[k])
    {
      UnitAtPointer(decrypted, unit_size, amount, i - start, pointer);
      data[i] := FromBytes(decrypted[pointer..pointer + unit_size]);
      pointer := pointer + unit_size;
    }
  }

  // ----- calls that transfer only a part

  /** After some calls on `size` elements: elements counted, bytes moved, and whether every call so
      far moved whole elements. */
  datatype Progress = Progress(elements: nat, bytes: nat, whole: bool)

  /** Where element number `elements` starts. */
  function Offset(elements: nat, w: nat): (r: nat) {
    elements * w
  }

  /** Bytes that a call on `left` elements of `w` bytes moves when it returns `result`: nothing if
      it would block, and never more than it was asked for. */
  function Moved(result: int, left: nat, w: nat): (n: nat)
    requires w > 0
    ensures Counted(n, w) <= left && n <= Offset(left, w)
  {
    var n := if result <= 0 then 0 else if result <= left * w then result else left * w;
    QuotientBound(n, left, w);
    n
  }

  /** The whole elements in `n` bytes, and the bytes beyond them. */
  function Counted(n: nat, w: nat): (r: nat)
    requires w > 0
  {
    n / w
  }

  function Uncounted(n: nat, w: nat): (r: nat)
    requires w > 0
  {
    n % w
  }

  lemma QuotientBound(n: nat, left: nat, w: nat)
    requires w > 0
    ensures n <= left * w ==> n / w <= left
    ensures left * w >= 0 && 0 / w == 0
  {
    DivModUnique(0, w, 0, 0);
    var q := n / w;
    if q > left {
      assert (q - left - 1) * w >= 0;
      assert q * w == left * w + w + (q - left - 1) * w;
    }
  }

  function Advance(p: Progress, result: int, size: nat, w: nat): (r: Progress)
    requires w > 0 && p.elements <= size
    ensures r.elements <= size
  {
    var n := Moved(result, size - p.elements, w);
    Progress(p.elements + Counted(n, w), p.bytes + n, p.whole && Uncounted(n, w) == 0)
  }

  /** The state after the calls that returned `results`. */
  function After(results: seq<int>, size: nat, w: nat): (p: Progress)
    requires w > 0
    ensures p.elements <= size
  {
    if results == [] then Progress(0, 0, true)
    else Advance(After(results[..|results| - 1], size, w), results[|results| - 1], size, w)
  }

  lemma CountedPart(elements: nat, n: nat, w: nat)
    requires w > 0
    ensures Offset(elements + Counted(n, w), w) + Uncounted(n, w) == Offset(elements, w) + n
  {
    var q, r := n / w, n % w;
    assert (elements + q) * w == elements * w + q * w;
  }

  lemma OffsetWithin(elements: nat, size: nat, w: nat)
    requires elements <= size
    ensures Offset(elements, w) + Offset(size - elements, w) == Offset(size, w)
  {
    assert elements * w + (size - elements) * w == size * w;
  }

  lemma NoneLeft(p: Progress, result: int, size: nat, w: nat)
    requires w > 0 && p.elements == size
    ensures Advance(p, result, size, w) == p
  {
    DivModUnique(0, w, 0, 0);
  }

  /** A call that ends inside an element moves bytes that are never counted. */
  lemma {:induction false} WholeMeansCounted(results: seq<int>, size: nat, w: nat)
    requires w > 0
    ensures var p := After(results, size, w);
            p.bytes >= Offset(p.elements, w) && (p.whole <==> p.bytes == Offset(p.elements, w))
  {
    hide Offset, Moved, Counted, Uncounted;
    if results == [] {
      OffsetWithin(0, 0, w);
    } else {
      var front := results[..|results| - 1];
      WholeMeansCounted(front, size, w);
      var p := After(front, size, w);
      CountedPart(p.elements, Moved(results[|results| - 1], size - p.elements, w), w);
    }
  }

  /** Byte transfers never end inside an element. */
  lemma {:induction false} BytesAreWhole(results: seq<int>, size: nat)
    ensures var p := After(results, size, 1);
            p.whole && p.bytes == p.elements
  {
    WholeMeansCounted(results, size, 1);
    if results != [] {
      BytesAreWhole(results[..|results| - 1], size);
    }
  }

  /** A four-byte element of which the first call takes three bytes is sent again from its start. */
  lemma SplitElement()
    ensures After([3, 4], 1, 4) == Progress(1, 7, false)
  {
    assert [3, 4][..1] == [3] && [3][..0] == [];
    assert Advance(Progress(0, 0, true), 3, 1, 4) == Progress(0, 3, false);
    assert Advance(Progress(0, 3, false), 4, 1, 4) == Progress(1, 7, false);
  }

  /** Whether every complete transfer is exact can be told from the request alone: it is for single
      bytes and for nothing at all. For wider elements there is always a schedule that ends inside
      an element and completes all the same. */
  lemma WidthIff(size: nat, w: nat)
    requires w > 0
    ensures (forall results: seq<int> ::
               After(results, size, w).elements == size ==> After(results, size, w).whole)
       <==> w == 1 || size == 0
  {
    if w == 1 || size == 0 {
      forall results: seq<int> ensures After(results, size, w).whole {
        if size == 0 {
          NothingToMove(results, w);
        } else {
          BytesAreWhole(results, size);
        }
      }
    } else {
      var results := SplitSchedule(size, w);
      assert After(results, size, w).elements == size && !After(results, size, w).whole;
    }
  }

  lemma {:induction false} NothingToMove(results: seq<int>, w: nat)
    requires w > 0
    ensures After(results, 0, w) == Progress(0, 0, true)
  {
    hide Advance;
    if results != [] {
      NothingToMove(results[..|results| - 1], w);
      NoneLeft(After(results[..|results| - 1], 0, w), results[|results| - 1], 0, w);
    }
  }

  /** One byte first, then whatever is asked for. */
  lemma SplitSchedule(size: nat, w: nat) returns (results: seq<int>)
    requires w > 1 && size > 0
    ensures After(results, size, w) == Progress(size, size * w + 1, false)
  {
    results := [1, size * w];
    FirstByte(size, w);
    AllTheRest(size, w);
    assert results[..1] == [1] && results[..0] == [] && results[..2] == results;
    AfterNone(results[..0], size, w);
    AfterNext(results, 0, size, w);
    AfterNext(results, 1, size, w);
    hide Advance;
  }

  lemma FirstByte(size: nat, w: nat)
    requires w > 1 && size > 0
    ensures Advance(Progress(0, 0, true), 1, size, w) == Progress(0, 1, false)
  {
    ProductAtLeastFactor(size, w);
    DivModUnique(1, w, 0, 1);
  }

  lemma AllTheRest(size: nat, w: nat)
    requires w > 1 && size > 0
    ensures Advance(Progress(0, 1, false), size * w, size, w) == Progress(size, size * w + 1, false)
  {
    ProductAtLeastFactor(size, w);
    DivModUnique(size * w, w, size, 0);
  }

  lemma ProductAtLeastFactor(size: nat, w: nat)
    requires w > 0 && size > 0
    ensures size * w >= 1
  {
    MulGap(w, size);
  }

  lemma AfterNext(results: seq<int>, i: nat, size: nat, w: nat)
    requires w > 0 && i < |results|
    ensures After(results[..i + 1], size, w) == Advance(After(results[..i], size, w), results[i], size, w)
  {
    hide Advance;
    assert results[..i + 1][..i] == results[..i];
  }

  lemma AfterNone(results: seq<int>, size: nat, w: nat)
    requires w > 0 && results == []
    ensures After(results, size, w) == Progress(0, 0, true) && Offset(0, w) == 0
  {
  }

  /** Nothing moves once everything is counted. */
  lemma {:induction false} AfterDone(results: seq<int>, calls: nat, size: nat, w: nat)
    requires w > 0 && calls <= |results|
    requires calls == |results| || After(results[..calls], size, w).elements == size
    ensures After(results, size, w) == After(results[..calls], size, w)
    decreases |results|
  {
    hide Advance;
    if calls == |results| {
      assert results[..calls] == results;
    } else {
      var front := results[..|results| - 1];
      assert front[..calls] == results[..calls];
      AfterDone(front, calls, size, w);
      NoneLeft(After(front, size, w), results[|results| - 1], size, w);
    }
  }

  lemma {:induction false} AfterGrows(results: seq<int>, calls: nat, size: nat, w: nat)
    requires w > 0 && calls <= |results|
    ensures After(results[..calls], size, w).bytes <= After(results, size, w).bytes
    decreases |results|
  {
    hide Moved, Counted, Uncounted;
    if calls == |results| {
      assert results[..calls] == results;
    } else {
      var front := results[..|results| - 1];
      assert front[..calls] == results[..calls];
      AfterGrows(front, calls, size, w);
    }
  }

  /** What call `c` puts on the wire: the bytes from the first element that is not counted yet. */
  ghost predicate SentByCall(wire: seq<Byte>, data: seq<Byte>, results: seq<int>, size: nat, w: nat, c: nat)
    requires w > 0 && c < |results|
  {
    var p, q := After(results[..c], size, w), After(results[..c + 1], size, w);
    var from := p.elements * w;
    && p.bytes <= q.bytes <= |wire| && from + (q.bytes - p.bytes) <= |data|
    && wire[p.bytes..q.bytes] == data[from..from + (q.bytes - p.bytes)]
  }

  lemma SentSoFar(wire: seq<Byte>, more: seq<Byte>, data: seq<Byte>, results: seq<int>, size: nat, w: nat, c: nat)
    requires w > 0 && c < |results| && SentByCall(wire, data, results, size, w, c)
    ensures SentByCall(wire + more, data, results, size, w, c)
  {
    hide After;
    var p, q := After(results[..c], size, w), After(results[..c + 1], size, w);
    assert (wire + more)[p.bytes..q.bytes] == wire[p.bytes..q.bytes];
  }

  lemma SentNow(wire: seq<Byte>, data: seq<Byte>, results: seq<int>, size: nat, w: nat, c: nat, n: nat)
    requires w > 0 && c < |results| && |data| == Offset(size, w)
    requires var p := After(results[..c], size, w);
             |wire| == p.bytes && n == Moved(results[c], size - p.elements, w)
    ensures var p := After(results[..c], size, w);
            && Offset(p.elements, w) + n <= |data|
            && SentByCall(wire + data[Offset(p.elements, w)..Offset(p.elements, w) + n], data, results, size, w, c)
  {
    hide After, Moved;
    AfterNext(results, c, size, w);
    OffsetWithin(After(results[..c], size, w).elements, size, w);
  }

  /** Calls that find nothing left put nothing on the wire. */
  lemma SentNothing(wire: seq<Byte>, data: seq<Byte>, results: seq<int>, size: nat, w: nat, calls: nat, c: nat)
    requires w > 0 && calls <= c < |results| && |data| == Offset(size, w)
    requires After(results[..calls], size, w).elements == size && After(results[..calls], size, w).bytes == |wire|
    ensures SentByCall(wire, data, results, size, w, c)
  {
    hide After;
    assert results[..c][..calls] == results[..calls] && results[..c + 1][..calls] == results[..calls];
    AfterDone(results[..c], calls, size, w);
    AfterDone(results[..c + 1], calls, size, w);
  }

  /** The sending loop on `size` elements of `w` bytes each; `wire` is what the kernel took. The
      data go out as they are exactly when every call took whole elements. */
  method SendAll(data: seq<Byte>, size: nat, w: nat, results: seq<int>) returns (wire: seq<Byte>, done: bool)
    requires w > 0 && |data| == Offset(size, w)
    ensures var p := After(results, size, w);
            && (done <==> p.elements == size)
            && |wire| == p.bytes
            && (p.whole ==> wire <= data)
            && (done ==> (wire == data <==> p.whole))
    ensures forall c: nat | c < |results| :: SentByCall(wire, data, results, size, w, c)
  {
    hide After, Moved, Offset, Counted, Uncounted, SentByCall;
    wire := [];
    var bytesWrote, calls := 0, 0;
    AfterNone(results[..0], size, w);
    while bytesWrote < size && calls < |results|
      invariant calls <= |results| && bytesWrote <= size
      invariant After(results[..calls], size, w).elements == bytesWrote
      invariant After(results[..calls], size, w).bytes == |wire|
      invariant After(results[..calls], size, w).whole ==> |wire| == Offset(bytesWrote, w) && wire <= data
      invariant forall c: nat | c < calls :: SentByCall(wire, data, results, size, w, c)
    {
      var bytes := Moved(results[calls], size - bytesWrote, w);
      AfterNext(results, calls, size, w);
      OffsetWithin(bytesWrote, size, w);
      CountedPart(bytesWrote, bytes, w);
      var pointer := Offset(bytesWrote, w);
      SentNow(wire, data, results, size, w, calls, bytes);
      var sent := wire + data[pointer..pointer + bytes];
      forall c: nat | c < calls ensures SentByCall(sent, data, results, size, w, c) {
        SentSoFar(wire, data[pointer..pointer + bytes], data, results, size, w, c);
      }
      wire := sent;
      bytesWrote := bytesWrote + Counted(bytes, w);
      calls := calls + 1;
    }
    done := bytesWrote == size;
    forall c: nat | calls <= c < |results| ensures SentByCall(wire, data, results, size, w, c) {
      SentNothing(wire, data, results, size, w, calls, c);
    }
    AfterDone(results, calls, size, w);
    WholeMeansCounted(results, size, w);
  }

  method CopyInto(buffer: array<Byte>, at: nat, bytes: seq<Byte>)
    requires at + |bytes| <= buffer.Length
    modifies buffer
    ensures buffer[..at + |bytes|] == old(buffer[..at]) + bytes
    ensures buffer[at + |bytes|..] == old(buffer[at + |bytes|..])
  {
    forall k | 0 <= k < |bytes| {
      buffer[at + k] := bytes[k];
    }
  }

  /** The receiving loop; `stream` is what has arrived, and no call returns more than that. */
  method RecvAll(stream: seq<Byte>, buffer: array<Byte>, size: nat, w: nat, results: seq<int>)
      returns (taken: nat, done: bool)
    requires w > 0 && buffer.Length == Offset(size, w) && After(results, size, w).bytes <= |stream|
    modifies buffer
    ensures var p := After(results, size, w);
            && (done <==> p.elements == size)
            && taken == p.bytes
            && (p.whole ==> taken <= buffer.Length && buffer[..taken] == stream[..taken])
            && (done ==> (taken == buffer.Length <==> p.whole))
  {
    hide After, Moved, Offset, Counted, Uncounted;
    taken := 0;
    var bytesRead, calls := 0, 0;
    AfterNone(results[..0], size, w);
    while bytesRead < size && calls < |results|
      invariant calls <= |results| && bytesRead <= size
      invariant After(results[..calls], size, w).elements == bytesRead
      invariant After(results[..calls], size, w).bytes == taken <= |stream|
      invariant After(results[..calls], size, w).whole ==>
                  taken == Offset(bytesRead, w) <= buffer.Length && buffer[..taken] == stream[..taken]
    {
      var bytes := Moved(results[calls], size - bytesRead, w);
      AfterNext(results, calls, size, w);
      AfterGrows(results, calls + 1, size, w);
      OffsetWithin(bytesRead, size, w);
      CountedPart(bytesRead, bytes, w);
      CopyInto(buffer, Offset(bytesRead, w), stream[taken..taken + bytes]);
      assert stream[..taken + bytes] == stream[..taken] + stream[taken..taken + bytes];
      taken := taken + bytes;
      bytesRead := bytesRead + Counted(bytes, w);
      calls := calls + 1;
    }
    done := bytesRead == size;
    AfterDone(results, calls, size, w);
    WholeMeansCounted(results, size, w);
  }

  // ----- encryption, which this model only requires to be undone by decryption

  datatype Cipher = Cipher(enc: seq<Byte> -> seq<Byte>, dec: seq<Byte> -> seq<Byte>)

  ghost predicate Reversible(c: Cipher) {
    forall m: seq<Byte> :: c.dec(c.enc(m)) == m && |c.enc(m)| == |m|
  }

  /** A byte message through both loops, under any partial transfers. */
  method Transfer(message: seq<Byte>, sends: seq<int>, recvs: seq<int>, c: Cipher)
      returns (received: seq<Byte>, done: bool)
    requires Reversible(c)
    requires After(recvs, |message|, 1).bytes <= After(sends, |message|, 1).bytes
    ensures done <==> After(recvs, |message|, 1).elements == |message|
    ensures done ==> received == message
  {
    hide After;
    var encrypted := c.enc(message);
    assert c.dec(c.enc(message)) == message && |c.enc(message)| == |message|;
    var wire, sent := SendAll(encrypted, |encrypted|, 1, sends);
    var buffer := new Byte[|message|];
    var taken: nat;
    taken, done := RecvAll(wire, buffer, |message|, 1, recvs);
    BytesAreWhole(sends, |message|);
    BytesAreWhole(recvs, |message|);
    if done {
      assert wire == encrypted;
      assert buffer[..] == buffer[..taken] == encrypted;
    }
    received := c.dec(buffer[..]);
  }

  /** Big integers arrive unchanged in the receiver's array exactly when they fit their unit. */
  method TransferChunk(data: seq<nat>, target: array<nat>, start: nat, amount: nat, unit_size: nat,
                       sends: seq<int>, recvs: seq<int>, c: Cipher) returns (inside: bool, done: bool)
    requires Reversible(c) && start + amount <= |data| == target.Length
    requires After(recvs, amount * unit_size, 1).bytes <= After(sends, amount * unit_size, 1).bytes
    modifies target
    ensures inside <==> Inside(data[start..start + amount], unit_size)
    ensures FitsUnit(data[start..start + amount], unit_size) ==> inside
    ensures done <==> inside && After(recvs, amount * unit_size, 1).elements == amount * unit_size
    ensures done ==> (target[start..start + amount] == data[start..start + amount]
                      <==> FitsUnit(data[start..start + amount], unit_size))
    ensures forall k | 0 <= k < target.Length && !(done && start <= k < start + amount) :: target[k] == old(target[k])
  {
    hide After, Packed, Unpacked, Inside, FitsUnit, Exported;
    ghost var chunk := data[start..start + amount];
    var buffer;
    buffer, inside := PackChunk(data, start, amount, unit_size);
    done := false;
    if inside {
      ExportExact(chunk, unit_size);
      var received;
      received, done := Transfer(buffer[..], sends, recvs, c);
      if done {
        UnpackChunk(received, target, start, amount, unit_size);
      }
    }
  }

  // ----- the ring form: words of `width` bits, values modulo 2^ring_size

  /** The table of masks, in arithmetic modulo 2^width. Shifting by the full width is undefined, so
      the last entry may first hold anything; it is then set to -1. */
  method MaskTable(width: nat, undefinedShift: nat) returns (masks: array<nat>)
    ensures fresh(masks) && masks.Length == width + 1
    ensures forall i: nat | i <= width :: masks[i] == Pow2(i) - 1
  {
    hide Pow2, Wrapped;
    masks := new nat[width + 1];
    for i := 0 to width + 1
      invariant forall j: nat | j < i :: masks[j] == Pow2(j) - 1
    {
      var shifted := if i < width then Pow2(i) else undefinedShift;
      masks[i] := Wrapped(shifted - 1, width);
      if i == width {
        masks[i] := Wrapped(-1, width);
      }
      MaskEntry(i, width);
    }
  }

  lemma MaskEntry(i: nat, width: nat)
    requires i <= width
    ensures Wrapped(if i < width then Pow2(i) - 1 else -1, width) == Pow2(i) - 1
  {
    var m := Pow2(width);
    if i < width {
      Pow2Below(i, width);
      DivModUnique(Pow2(i) - 1, m, 0, Pow2(i) - 1);
    } else {
      DivModUnique(-1, m, -1, m - 1);
    }
  }

  /** A unit of whole bytes has room for every value of the ring. */
  lemma {:induction false} Pow256IsPow2(u: nat)
    ensures Pow256(u) == Pow2(8 * u)
  {
    if u > 0 {
      Pow256IsPow2(u - 1);
      var k := 8 * u - 8;
      hide Pow2;
      Pow2Step(k);
      Pow2Step(k + 1);
      Pow2Step(k + 2);
      Pow2Step(k + 3);
      Pow2Step(k + 4);
      Pow2Step(k + 5);
      Pow2Step(k + 6);
      Pow2Step(k + 7);
    }
  }

  lemma ReducedFits(v: nat, ring_size: nat)
    ensures Wrapped(v, ring_size) < Pow256(UnitSize(ring_size))
  {
    Pow256IsPow2(UnitSize(ring_size));
    Pow2Below(ring_size, 8 * UnitSize(ring_size));
  }

  function Reduced(values: seq<nat>, ring_size: nat): (r: seq<nat>)
    ensures |r| == |values|
  {
    seq(|values|, i requires 0 <= i < |values| => Wrapped(values[i], ring_size))
  }

  lemma ReducedFitsUnit(values: seq<nat>, ring_size: nat)
    ensures FitsUnit(Reduced(values, ring_size), UnitSize(ring_size))
  {
    hide Wrapped, Pow256;
    forall i | 0 <= i < |values|
      ensures Reduced(values, ring_size)[i] < Pow256(UnitSize(ring_size))
    {
      ReducedFits(values[i], ring_size);
    }
  }

  /** The sender masks its own copy in place and copies out the low bytes of each word. */
  method PackRing(data: array<nat>, start: nat, amount: nat, ring_size: nat, masks: array<nat>)
      returns (buffer: array<Byte>)
    requires data != masks && start + amount <= data.Length && ring_size < masks.Length
    requires masks[ring_size] == Pow2(ring_size) - 1
    modifies data
    ensures fresh(buffer)
    ensures data[start..start + amount] == Reduced(old(data[start..start + amount]), ring_size)
    ensures buffer[..] == Packed(data[start..start + amount], UnitSize(ring_size))
    ensures forall k | 0 <= k < data.Length && !(start <= k < start + amount) :: data[k] == old(data[k])
  {
    hide Pow2, Wrapped, And, LowBytes, Packed, Offset, Reduced;
    ghost var chunk := Reduced(data[start..start + amount], ring_size);
    var unit_size := (ring_size + 7) / 8;
    var buffer_size := Offset(amount, unit_size);
    buffer := new Byte[buffer_size](_ => 0);
    var pointer := 0;
    PackedNone(chunk[..0], unit_size);
    OffsetStart(unit_size);
    for i := start to start + amount
      invariant fresh(buffer) && buffer.Length == buffer_size
      invariant pointer == Offset(i - start, unit_size) <= buffer_size
      invariant forall k | start <= k < i :: data[k] == chunk[k - start]
      invariant forall k | 0 <= k < data.Length && !(start <= k < i) :: data[k] == old(data[k])
      invariant buffer[..pointer] == Packed(chunk[..i - start], unit_size)
    {
      OffsetNext(i - start, amount, unit_size);
      ReducedAt(old(data[start..start + amount]), i - start, ring_size);
      MaskReduces(data[i], ring_size);
      data[i] := And(data[i], masks[ring_size]);
      PackedNext(chunk, i - start, unit_size);
      CopyInto(buffer, pointer, LowBytes(data[i], unit_size));
      pointer := pointer + unit_size;
    }
    assert chunk[..amount] == chunk;
  }

  lemma OffsetStart(w: nat)
    ensures Offset(0, w) == 0
  {
  }

  lemma OffsetNext(i: nat, amount: nat, w: nat)
    requires i < amount
    ensures Offset(i + 1, w) == Offset(i, w) + w <= Offset(amount, w)
  {
    UnitFits(i, amount, w);
  }

  lemma ReducedAt(values: seq<nat>, k: nat, ring_size: nat)
    requires k < |values|
    ensures Reduced(values, ring_size)[k] == Wrapped(values[k], ring_size)
  {
  }

  lemma MaskReduces(v: nat, ring_size: nat)
    ensures And(v, Pow2(ring_size) - 1) == Wrapped(v, ring_size)
  {
    AndMask(v, ring_size);
  }

  /** Storing into the low bytes of a word leaves its upper bytes. */
  function PutLow(word: nat, bytes: seq<Byte>): (r: nat) {
    FromBytes(bytes) + Upper(word, Pow256(|bytes|))
  }

  function Upper(word: nat, m: nat): (r: nat)
    requires m > 0
  {
    ModAtMost(word, m);
    word - word % m
  }

  lemma ModAtMost(v: nat, m: nat)
    requires m > 0
    ensures v % m <= v
  {
    if v < m {
      DivModUnique(v, m, 0, v);
    }
  }

  lemma PutLowZero(bytes: seq<Byte>)
    ensures PutLow(0, bytes) == FromBytes(bytes)
  {
    DivModUnique(0, Pow256(|bytes|), 0, 0);
  }

  /** The receiver clears the words and copies the units into their low bytes. */
  method UnpackRing(decrypted: seq<Byte>, data: array<nat>, start: nat, amount: nat, ring_size: nat)
    requires start + amount <= data.Length && |decrypted| == amount * UnitSize(ring_size)
    modifies data
    ensures data[start..start + amount] == Unpacked(decrypted, UnitSize(ring_size), amount)
    ensures forall k | 0 <= k < data.Length && !(start <= k < start + amount) :: data[k] == old(data[k])
  {
    hide Unpacked, FromBytes, PutLow;
    var unit_size := (ring_size + 7) / 8;
    forall k | start <= k < start + amount {
      data[k] := 0;
    }
    var pointer := 0;
    for i := start to start + amount
      invariant pointer == (i - start) * unit_size
      invariant forall k | start <= k < i :: data[k] == Unpacked(decrypted, unit_size, amount)[k - start]
      invariant forall k | i <= k < start + amount :: data[k] == 0
      invariant forall k | 0 <= k < data.Length && !(start <= k < start + amount) :: data[k] == old(data[k])
    {
      UnitAtPointer(decrypted, unit_size, amount, i - start, pointer);
      PutLowZero(decrypted[pointer..pointer + unit_size]);
      data[i] := PutLow(data[i], decrypted[pointer..pointer + unit_size]);
      pointer := pointer + unit_size;
    }
  }

  /** Whatever the words held, the receiver gets exactly what is left of them in the ring, and the
      sender keeps the same values. */
  method TransferRing(source: array<nat>, target: array<nat>, start: nat, amount: nat, ring_size: nat,
                      masks: array<nat>, sends: seq<int>, recvs: seq<int>, c: Cipher) returns (done: bool)
    requires Reversible(c) && source != target && source != masks
    requires start + amount <= source.Length == target.Length
    requires ring_size < masks.Length && masks[ring_size] == Pow2(ring_size) - 1
    requires After(recvs, amount * UnitSize(ring_size), 1).bytes <= After(sends, amount * UnitSize(ring_size), 1).bytes
    modifies source, target
    ensures done <==> After(recvs, amount * UnitSize(ring_size), 1).elements == amount * UnitSize(ring_size)
    ensures source[start..start + amount] == Reduced(old(source[start..start + amount]), ring_size)
    ensures done ==> target[start..start + amount] == source[start..start + amount]
    ensures forall k | 0 <= k < source.Length && !(start <= k < start + amount) :: source[k] == old(source[k])
    ensures forall k | 0 <= k < target.Length && !(done && start <= k < start + amount) :: target[k] == old(target[k])
  {
    hide After, Packed, Unpacked, Reduced;
    var buffer := PackRing(source, start, amount, ring_size, masks);
    ReducedFitsUnit(old(source[start..start + amount]), ring_size);
    RoundTripExact(source[start..start + amount], UnitSize(ring_size));
    var received;
    received, done := Transfer(buffer[..], sends, recvs, c);
    if done {
      UnpackRing(received, target, start, amount, ring_size);
    }
  }
}
