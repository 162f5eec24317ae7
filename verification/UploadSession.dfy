/**
 The record of which chunks of an upload have arrived: a text of hexadecimal
 digits, four chunks a digit, the most significant bit first. The text comes from
 a database column and may be short, padded with blanks, in upper case or damaged.
 */
module UploadSessions {
  import opened Text

  datatype Column = Null | Text(value: string)

  /** -1 for anything that is not a hexadecimal digit. */
  function HexValue(c: char): (v: int)
    ensures -1 <= v < 16
  {
    if '0' <= c <= '9' then (c - '0') as int
    else if 'a' <= c <= 'f' then (c - 'a') as int + 10
    else if 'A' <= c <= 'F' then (c - 'A') as int + 10
    else -1
  }

  function HexDigit(v: int): (c: char)
    requires 0 <= v < 16
    ensures HexValue(c) == v && !IsSpace(c)
  {
    if v < 10 then '0' + v as char else 'a' + (v - 10) as char
  }

  /** The mask 1 << (3 - index % 4). */
  function Weight(index: nat): (w: nat)
    ensures w in {1, 2, 4, 8}
  {
    match index % 4
    case 0 => 8
    case 1 => 4
    case 2 => 2
    case _ => 1
  }

  predicate Bit(v: int, index: nat)
    requires 0 <= v < 16
  {
    v / Weight(index) % 2 == 1
  }

  /** v with one bit switched on. */
  function WithBit(v: int, index: nat): (w: int)
    requires 0 <= v < 16
    ensures 0 <= w < 16
  {
    if Bit(v, index) then v else v + Weight(index)
  }

  lemma BitsOfWithBit(v: int, index: nat, j: nat)
    requires 0 <= v < 16
    ensures Bit(WithBit(v, index), j) == (Bit(v, j) || j % 4 == index % 4)
  {
    WeightsDiffer(index, j);
    if !Bit(v, index) {
      BitsWithWeight(v, Weight(index), Weight(j));
    }
  }

  lemma WeightsDiffer(i: nat, j: nat)
    ensures Weight(i) == Weight(j) <==> i % 4 == j % 4
  {
  }

  lemma BitsWithWeight(v: int, w: nat, x: nat)
    requires 0 <= v < 16 && w in {1, 2, 4, 8} && x in {1, 2, 4, 8} && v / w % 2 == 0
    ensures (v + w) / x % 2 == if x == w then 1 else v / x % 2
  {
    if w == 1 {
      WithOne(v);
    } else if w == 2 {
      WithTwo(v);
    } else if w == 4 {
      WithFour(v);
    } else {
      WithEight(v);
    }
  }

  lemma WithOne(v: int)
    requires 0 <= v < 16 && v / 1 % 2 == 0
    ensures (v + 1) / 1 % 2 == 1 && (v + 1) / 2 % 2 == v / 2 % 2
    ensures (v + 1) / 4 % 2 == v / 4 % 2 && (v + 1) / 8 % 2 == v / 8 % 2
  {
  }

  lemma WithTwo(v: int)
    requires 0 <= v < 16 && v / 2 % 2 == 0
    ensures (v + 2) / 1 % 2 == v / 1 % 2 && (v + 2) / 2 % 2 == 1
    ensures (v + 2) / 4 % 2 == v / 4 % 2 && (v + 2) / 8 % 2 == v / 8 % 2
  {
  }

  lemma WithFour(v: int)
    requires 0 <= v < 16 && v / 4 % 2 == 0
    ensures (v + 4) / 1 % 2 == v / 1 % 2 && (v + 4) / 2 % 2 == v / 2 % 2
    ensures (v + 4) / 4 % 2 == 1 && (v + 4) / 8 % 2 == v / 8 % 2
  {
  }

  lemma WithEight(v: int)
    requires 0 <= v < 16 && v / 8 % 2 == 0
    ensures (v + 8) / 1 % 2 == v / 1 % 2 && (v + 8) / 2 % 2 == v / 2 % 2
    ensures (v + 8) / 4 % 2 == v / 4 % 2 && (v + 8) / 8 % 2 == 1
  {
  }

  /** Whether the text records chunk index; a damaged digit records nothing. */
  predicate Recorded(bits: string, index: int) {
    0 <= index < 4 * |bits| && HexValue(bits[index / 4]) >= 0 && Bit(HexValue(bits[index / 4]), index)
  }

  /** The digits that record the chunk at this place of their group of four. */
  predicate DigitHolds(c: char, place: nat) {
    match place
    case 0 => c in {'8', '9', 'a', 'b', 'c', 'd', 'e', 'f', 'A', 'B', 'C', 'D', 'E', 'F'}
    case 1 => c in {'4', '5', '6', '7', 'c', 'd', 'e', 'f', 'C', 'D', 'E', 'F'}
    case 2 => c in {'2', '3', '6', '7', 'a', 'b', 'e', 'f', 'A', 'B', 'E', 'F'}
    case _ => c in {'1', '3', '5', '7', '9', 'b', 'd', 'f', 'B', 'D', 'F'}
  }

  lemma DigitHoldsExactly(c: char, index: nat)
    ensures HexValue(c) >= 0 && Bit(HexValue(c), index) <==> DigitHolds(c, index % 4)
  {
    if HexValue(c) >= 0 {
      if '0' <= c <= '9' {
        DecimalDigit(c, index);
      } else {
        LetterDigit(c, index);
      }
    }
  }

  lemma DecimalDigit(c: char, index: nat)
    requires '0' <= c <= '9'
    ensures Bit(HexValue(c), index) <==> DigitHolds(c, index % 4)
  {
    assert c in {'0', '1', '2', '3', '4', '5', '6', '7', '8', '9'};
  }

  lemma LetterDigit(c: char, index: nat)
    requires 'a' <= c <= 'f' || 'A' <= c <= 'F'
    ensures Bit(HexValue(c), index) <==> DigitHolds(c, index % 4)
  {
    assert c in {'a', 'b', 'c', 'd', 'e', 'f', 'A', 'B', 'C', 'D', 'E', 'F'};
  }

  /** What a stored text records, digit by digit: in "8" the first chunk of four, in "4" the second, and so on. */
  lemma RecordedByDigit(bits: string, j: int)
    ensures Recorded(bits, j) <==> 0 <= j < 4 * |bits| && DigitHolds(bits[j / 4], j % 4)
  {
    if 0 <= j < 4 * |bits| {
      DigitHoldsExactly(bits[j / 4], j);
    }
  }

  /** Text in upper case records the same chunks. */
  lemma RecordedInEitherCase(bits: string, j: int)
    ensures Recorded(ToLower(bits), j) <==> Recorded(bits, j)
  {
    if 0 <= j < 4 * |bits| {
      assert HexValue(LowerChar(bits[j / 4])) == HexValue(bits[j / 4]);
    }
  }

  function Chunks(size: int, chunk: int): (n: nat)
    ensures size > 0 && chunk > 0 ==> (n - 1) * chunk < size <= n * chunk
    ensures size <= 0 || chunk <= 0 ==> n == 0
  {
    if chunk <= 0 || size <= 0 then 0
    else
      var n := size / chunk;
      assert size == n * chunk + size % chunk;
      if size % chunk != 0 then n + 1 else n
  }

  function Padded(bits: string, digits: nat): (r: string)
    ensures |r| == if |bits| < digits then digits else |bits|
  {
    if |bits| < digits then bits + seq(digits - |bits|, _ => '0') else bits
  }

  /** The text after chunk index of total has been recorded. */
  function Marked(bits: string, total: nat, index: nat): string
    requires index < total
  {
    var padded := Padded(bits, (total + 3) / 4);
    var v := HexValue(padded[index / 4]);
    padded[index / 4 := HexDigit(WithBit(if v < 0 then 0 else v, index))]
  }

  /** Recording a chunk adds it and nothing else, whatever the text looked like. */
  lemma MarkingIsInsertion(bits: string, total: nat, index: nat)
    requires index < total
    ensures forall j: int :: Recorded(Marked(bits, total, index), j) <==> Recorded(bits, j) || j == index
  {
    var padded := Padded(bits, (total + 3) / 4);
    var v := HexValue(padded[index / 4]);
    forall j: int ensures Recorded(Marked(bits, total, index), j) <==> Recorded(bits, j) || j == index {
      if 0 <= j < 4 * |padded| {
        BitsOfWithBit(if v < 0 then 0 else v, index, j);
        assert !Bit(0, j);
        assert j / 4 == index / 4 && j % 4 == index % 4 ==> j == index;
      }
    }
  }

  lemma MarkingStaysTrimmed(bits: string, total: nat, index: nat)
    requires index < total && Trim(bits) == bits
    ensures Trim(Marked(bits, total, index)) == Marked(bits, total, index)
  {
    TrimLeftStarts(bits);
    TrimRightEnds(TrimLeft(bits));
    var padded := Padded(bits, (total + 3) / 4);
    assert !IsSpace('0');
    TrimIdentity(Marked(bits, total, index));
  }

  class UploadSession {
    var totalSize: int
    var chunkSize: int
    var receivedBitmap: Column

    function BitmapString(): (s: string)
      reads this
      ensures Trim(s) == s
    {
      if receivedBitmap.Null? then "" else
        TrimTwice(receivedBitmap.value);
        Trim(receivedBitmap.value)
    }

    function TotalChunks(): (n: nat)
      reads this
      ensures n == Chunks(totalSize, chunkSize)
    {
      Chunks(totalSize, chunkSize)
    }

    predicate Received(index: int)
      reads this
    {
      Recorded(BitmapString(), index)
    }

    /** Records a chunk; tells whether that changed anything. */
    method MarkReceived(index: int) returns (changed: bool)
      modifies this`receivedBitmap
      ensures changed <==> 0 <= index < TotalChunks() && !old(Received(index))
      ensures forall j: int :: Received(j) <==> old(Received(j)) || (changed && j == index)
      ensures !changed ==> receivedBitmap == old(receivedBitmap)
      ensures changed ==> BitmapString() == Marked(old(BitmapString()), TotalChunks(), index)
    {
      if Received(index) {
        return false;
      }
      var total := TotalChunks();
      if total <= 0 || index < 0 || index >= total {
        return false;
      }
      var bits := MarkedText(BitmapString(), total, index);
      MarkingIsInsertion(BitmapString(), total, index);
      MarkingStaysTrimmed(BitmapString(), total, index);
      receivedBitmap := Text(bits);
      changed := true;
    }

    /** The text with enough digits and the chunk's bit set, made in a buffer. */
    method MarkedText(text: string, total: nat, index: nat) returns (r: string)
      requires index < total
      ensures r == Marked(text, total, index)
    {
      var needDigits := (total + 3) / 4;
      var length := if |text| < needDigits then needDigits else |text|;
      var bits := new char[length](i requires 0 <= i < length => if i < |text| then text[i] else '0');
      var v := HexValue(bits[index / 4]);
      if v < 0 {
        v := 0;
      }
      v := WithBit(v, index);
      bits[index / 4] := HexDigit(v);
      r := bits[..];
    }

    method MissingChunks() returns (missing: seq<int>)
      ensures forall a, b | 0 <= a < b < |missing| :: missing[a] < missing[b]
      ensures forall i :: i in missing <==> 0 <= i < TotalChunks() && !Received(i)
    {
      missing := [];
      for i := 0 to TotalChunks()
        invariant forall a, b | 0 <= a < b < |missing| :: missing[a] < missing[b]
        invariant forall a | 0 <= a < |missing| :: missing[a] < i
        invariant forall j :: j in missing <==> 0 <= j < i && !Received(j)
      {
        if !Received(i) {
          missing := missing + [i];
        }
      }
    }

    method IsComplete() returns (complete: bool)
      ensures complete <==> totalSize > 0 && chunkSize > 0 && forall i | 0 <= i < TotalChunks() :: Received(i)
    {
      var total := TotalChunks();
      if total == 0 {
        return false;
      }
      for i := 0 to total
        invariant forall j | 0 <= j < i :: Received(j)
      {
        if !Received(i) {
          return false;
        }
      }
      return true;
    }
  }

  // ----- a whole upload ---------------------------------------------------------

  /** The text and the number of reported changes after chunks arrive in the given order. */
  function Replay(bits: string, total: nat, arrivals: seq<int>): (string, nat) {
    if arrivals == [] then (bits, 0)
    else
      var (before, count) := Replay(bits, total, arrivals[..|arrivals| - 1]);
      var index := arrivals[|arrivals| - 1];
      if 0 <= index < total && !Recorded(before, index) then (Marked(before, total, index), count + 1)
      else (before, count)
  }

  function InRange(arrivals: seq<int>, total: nat): set<int> {
    set i | i in arrivals && 0 <= i < total
  }

  /** In any order and with any repetitions, exactly the distinct chunks in range are counted and recorded. */
  lemma {:induction false} ReplayCountsDistinct(total: nat, arrivals: seq<int>)
    ensures Replay("", total, arrivals).1 == |InRange(arrivals, total)|
    ensures Records(Replay("", total, arrivals).0, InRange(arrivals, total))
  {
    if arrivals != [] {
      var front, index := arrivals[..|arrivals| - 1], arrivals[|arrivals| - 1];
      ReplayCountsDistinct(total, front);
      InRangeGrows(arrivals, front, index, total);
      OneArrival(Replay("", total, front).0, total, index, InRange(front, total));
    }
  }

  ghost predicate Records(bits: string, chunks: set<int>) {
    forall j: int :: Recorded(bits, j) <==> j in chunks
  }

  lemma OneArrival(before: string, total: nat, index: int, chunks: set<int>)
    requires Records(before, chunks)
    ensures 0 <= index < total && !Recorded(before, index) ==>
              Records(Marked(before, total, index), chunks + {index}) && |chunks + {index}| == |chunks| + 1
    ensures Recorded(before, index) ==> chunks + {index} == chunks
  {
    if 0 <= index < total && !Recorded(before, index) {
      MarkingIsInsertion(before, total, index);
    }
  }

  lemma InRangeGrows(arrivals: seq<int>, front: seq<int>, index: int, total: nat)
    requires arrivals == front + [index]
    ensures InRange(arrivals, total) == InRange(front, total) + if 0 <= index < total then {index} else {}
  {
  }
}
