/** Roll numbers of the form "ST" followed by at least three digits: the
    format check, the next number after the highest one on record, and a
    run of consecutive numbers. The query for the highest roll number is
    not modelled: it arrives as an optional text. */
module RollNumbers {
  import opened Common
  import opened Text

  /** The prefix of every roll number. */
  const Prefix: string := "ST"

  /** `/^ST\d{3,}$/`. */
  predicate IsValidRollNumberFormat(s: string) {
    |s| >= 5 && s[..2] == Prefix && AllDigits(s[2..])
  }

  /** `ST${n.toString().padStart(3, '0')}`; NaN prints as "NaN". */
  function FormatRollNumber(n: Option<int>): string {
    Prefix + PadStart(NumberText(n), 3, '0')
  }

  /** `parseInt(last.replace('ST', ''), 10) + 1`: the number after the one
      in `last`; NaN stays NaN. */
  function NumberAfter(last: string): Option<int> {
    Offset(NumberIn(last), 1)
  }

  /** `parseInt(last.replace('ST', ''), 10)`. */
  function NumberIn(last: string): Option<int> {
    ParseInt(ReplaceFirst(last, Prefix, ""))
  }

  /** The first number to hand out: 1 when there is no previous roll
      number (none on record, or a null or empty one), else the number
      after it. */
  function StartNumber(last: Option<string>): Option<int> {
    if last.Some? && last.value != "" then NumberAfter(last.value) else Some(1)
  }

  /** `generateNextRollNumber` once the highest roll number is known. */
  function GenerateNextRollNumber(last: Option<string>): (r: string)
    ensures last.None? || last.value == "" ==> r == "ST001"
  {
    if last.None? || last.value == "" then "ST001"
    else FormatRollNumber(NumberAfter(last.value))
  }

  /** The next roll number is the formatted start number. */
  lemma NextIsStart(last: Option<string>)
    ensures GenerateNextRollNumber(last) == FormatRollNumber(StartNumber(last))
  {
    if last.None? || last.value == "" {
      FormatOne();
    }
  }

  /** 1 formats as "ST001". */
  lemma FormatOne()
    ensures FormatRollNumber(Some(1)) == "ST001"
  {
    assert NatToString(1) == "1";
    assert Repeat('0', 2) == "00" by {
      assert Repeat('0', 1) == "0";
    }
  }

  /** The zero-padded digits of a whole number. */
  lemma {:induction false} PaddedDigits(n: nat)
    ensures var p := PadStart(NatToString(n), 3, '0');
      |p| >= 3 && AllDigits(p) && DigitsValue(p) == n
  {
    var t := NatToString(n);
    DigitsOfNat(n);
    if |t| < 3 {
      LeadingZeros(3 - |t|, t);
    }
  }

  /** Every whole number formats as a valid roll number. */
  lemma FormattedIsValid(n: nat)
    ensures IsValidRollNumberFormat(FormatRollNumber(Some(n)))
  {
    PaddedDigits(n);
    var p := PadStart(NatToString(n), 3, '0');
    assert FormatRollNumber(Some(n))[2..] == p;
  }

  /** Formatting a whole number and reading it back the way the generator
      reads the last roll number gives the number again. */
  lemma FormatParseRoundTrip(n: nat)
    ensures NumberIn(FormatRollNumber(Some(n))) == Some(n)
  {
    var p := PadStart(NatToString(n), 3, '0');
    PaddedDigits(n);
    var f := FormatRollNumber(Some(n));
    assert f == Prefix + p;
    assert f[2..] == p;
    NumberInDigits(f);
  }

  /** After "ST" and a run of digits comes the run's value. */
  lemma NumberInDigits(last: string)
    requires |last| > 2 && last[..2] == Prefix && AllDigits(last[2..])
    ensures NumberIn(last) == Some(DigitsValue(last[2..]) as int)
  {
    ReplaceLeading(last, Prefix);
    ParseDigits(last[2..]);
  }

  /** The number after a valid roll number is one more than its digits
      say. */
  lemma NumberAfterValid(last: string)
    requires IsValidRollNumberFormat(last)
    ensures NumberAfter(last) == Some(DigitsValue(last[2..]) + 1)
  {
    NumberInDigits(last);
    assert NumberAfter(last) == Offset(NumberIn(last), 1);
  }

  /** A non-empty last roll number whose successor is the whole number `w`
      is followed by `w`, formatted. */
  lemma NextIsFormatted(last: string, w: int)
    requires last != "" && NumberAfter(last) == Some(w)
    ensures GenerateNextRollNumber(Some(last)) == FormatRollNumber(Some(w))
  {
  }

  /** After a valid roll number comes the one numbered one higher, and it
      is valid again. */
  lemma NextOfValid(last: string)
    requires IsValidRollNumberFormat(last)
    ensures GenerateNextRollNumber(Some(last)) == FormatRollNumber(Some(DigitsValue(last[2..]) + 1))
    ensures IsValidRollNumberFormat(GenerateNextRollNumber(Some(last)))
  {
    var w := DigitsValue(last[2..]) + 1;
    NumberAfterValid(last);
    NextIsFormatted(last, w);
    FormattedIsValid(w);
  }

  /** The padding pads to three digits: ST009 is followed by ST010. */
  lemma NextAfterNine()
    ensures GenerateNextRollNumber(Some("ST009")) == "ST010"
  {
    NineDigits();
    NextOfValid("ST009");
    FormatTen();
  }

  /** The padding never cuts: ST999 is followed by ST1000. */
  lemma NextAfterNineHundredNinetyNine()
    ensures GenerateNextRollNumber(Some("ST999")) == "ST1000"
  {
    NineHundredNinetyNineDigits();
    NextOfValid("ST999");
    FormatThousand();
  }

  lemma NineDigits()
    ensures IsValidRollNumberFormat("ST009") && DigitsValue("ST009"[2..]) == 9
  {
    assert "ST009"[..2] == Prefix && "ST009"[2..] == "009";
    assert "009"[..2] == "00" && "00"[..1] == "0";
  }

  lemma NineHundredNinetyNineDigits()
    ensures IsValidRollNumberFormat("ST999") && DigitsValue("ST999"[2..]) == 999
  {
    assert "ST999"[..2] == Prefix && "ST999"[2..] == "999";
    assert "999"[..2] == "99" && "99"[..1] == "9";
  }

  lemma FormatTen()
    ensures FormatRollNumber(Some(10)) == "ST010"
  {
    assert NatToString(10) == "10" by {
      assert NatToString(1) == "1";
    }
    assert PadStart("10", 3, '0') == "010" by {
      assert Repeat('0', 1) == "0";
    }
  }

  lemma FormatThousand()
    ensures FormatRollNumber(Some(1000)) == "ST1000"
  {
    assert NatToString(1000) == "1000" by {
      assert NatToString(100) == "100" by {
        assert NatToString(10) == "10" by {
          assert NatToString(1) == "1";
        }
      }
    }
  }

  /** A last roll number whose rest is not a number gives "STNaN". */
  lemma NotANumberExample()
    ensures GenerateNextRollNumber(Some("STX")) == "STNaN"
  {
    var last := "STX";
    assert last[..2] == Prefix && last[2..] == "X";
    ReplaceLeading(last, Prefix);
    assert TrimStart("X") == "X" by {
      assert !IsSpace('X');
    }
    assert DigitPrefix("X") == "";
    assert NumberIn(last) == None;
  }

  /** `generateMultipleRollNumbers` once the highest roll number is known:
      `count` consecutive numbers from the start number. A count that is
      not positive gives none. */
  method GenerateMultipleRollNumbers(last: Option<string>, count: int) returns (rollNumbers: seq<string>)
    ensures rollNumbers == Consecutive(StartNumber(last), if count > 0 then count else 0)
  {
    var startNumber: Option<int> := Some(1);
    if last.Some? && last.value != "" {
      startNumber := NumberAfter(last.value);
    }
    rollNumbers := CountFrom(startNumber, count);
  }

  /** The loop of `generateMultipleRollNumbers`: push the formatted
      `startNumber + i` for each `i` below `count`. */
  method CountFrom(startNumber: Option<int>, count: int) returns (rollNumbers: seq<string>)
    ensures rollNumbers == Consecutive(startNumber, if count > 0 then count else 0)
  {
    rollNumbers := [];
    var i := 0;
    while i < count
      invariant 0 <= i <= if count > 0 then count else 0
      invariant rollNumbers == Consecutive(startNumber, i)
    {
      var number := Offset(startNumber, i);
      rollNumbers := rollNumbers + [FormatRollNumber(number)];
      i := i + 1;
    }
  }

  /** The first `n` roll numbers counting up from `start`. */
  function Consecutive(start: Option<int>, n: nat): (r: seq<string>)
    ensures |r| == n
  {
    if n == 0 then [] else Consecutive(start, n - 1) + [FormatRollNumber(Offset(start, n - 1))]
  }

  /** The `k`-th of them is `start + k`, formatted. */
  lemma {:induction false} ConsecutiveAt(start: Option<int>, n: nat, k: nat)
    requires k < n
    ensures Consecutive(start, n)[k] == FormatRollNumber(Offset(start, k))
  {
    if k < n - 1 {
      ConsecutiveAt(start, n - 1, k);
    }
  }

  /** `start + i`, where NaN plus anything is NaN. */
  function Offset(start: Option<int>, i: int): (r: Option<int>)
    ensures r.Some? <==> start.Some?
    ensures r.Some? ==> r.value - start.value == i
  {
    match start
    case None => None
    case Some(v) => Some(v + i)
  }

  /** From a whole start number (no previous roll number, or a valid one),
      every generated roll number is valid and reads back as the start
      plus its position. */
  lemma ConsecutiveValid(start: nat, n: nat, i: nat)
    requires i < n
    ensures IsValidRollNumberFormat(Consecutive(Some(start), n)[i])
    ensures NumberIn(Consecutive(Some(start), n)[i]) == Some(start + i)
  {
    ConsecutiveAt(Some(start), n, i);
    FormattedIsValid(start + i);
    FormatParseRoundTrip(start + i);
  }

  /** The generated roll numbers are pairwise distinct. */
  lemma ConsecutiveDistinct(start: nat, n: nat, i: nat, j: nat)
    requires i < j < n
    ensures Consecutive(Some(start), n)[i] != Consecutive(Some(start), n)[j]
  {
    ConsecutiveValid(start, n, i);
    ConsecutiveValid(start, n, j);
  }

  /** The first generated roll number is the one `GenerateNextRollNumber`
      gives. */
  lemma ConsecutiveStartsWithNext(last: Option<string>, n: nat)
    requires n > 0
    ensures Consecutive(StartNumber(last), n)[0] == GenerateNextRollNumber(last)
  {
    ConsecutiveAt(StartNumber(last), n, 0);
    NextIsStart(last);
    assert Offset(StartNumber(last), 0) == StartNumber(last);
  }

  /** No previous roll number, or a valid one, gives a whole start number. */
  lemma StartIsWhole(last: Option<string>)
    requires last.None? || last.value == "" || IsValidRollNumberFormat(last.value)
    ensures StartNumber(last).Some? && StartNumber(last).value >= 1
  {
    if last.Some? && last.value != "" {
      NextOfValid(last.value);
    }
  }
}
