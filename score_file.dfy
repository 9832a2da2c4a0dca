/**
 * The high-score file of the snake game (snake.py): a JSON object holding one
 * entry, the score as a decimal string mapped to the MD5 hex digest of that
 * string. Writing stores the pair; reading takes the first entry, checks the
 * digest and converts the key to a number. The digest function is a parameter.
 */
module ScoreFile {
  import opened Wrappers

  /** One key/value pair of the JSON object. */
  datatype Entry = Entry(key: string, value: string)

  /**
   * The entries of the JSON object as they stand in the file, in order; a key
   * may repeat. Loading the object keeps a repeated key at its first position
   * with the value of its last occurrence.
   */
  type Record = seq<Entry>

  /** Why reading the file ends the program. */
  datatype ReadError =
    | EmptyRecord   // no first key (IndexError)
    | NotAscii      // the key cannot be encoded as ASCII (UnicodeEncodeError)
    | HashMismatch  // the stored digest differs (the program quits)
    | NotANumber    // the key is not a decimal number (ValueError)

  predicate IsAscii(s: string) {
    forall i :: 0 <= i < |s| ==> s[i] as int < 128
  }

  predicate IsDigit(c: char) {
    '0' <= c <= '9'
  }

  /** A non-empty string of decimal digits. */
  predicate IsNumeral(s: string) {
    |s| > 0 && forall i :: 0 <= i < |s| ==> IsDigit(s[i])
  }

  function Digit(d: int): (c: char)
    requires 0 <= d < 10
    ensures IsDigit(c) && c as int - '0' as int == d
  {
    ('0' as int + d) as char
  }

  function DigitValue(c: char): (d: nat)
    requires IsDigit(c)
    ensures d < 10 && Digit(d) == c
  {
    c as int - '0' as int
  }

  /** The value of a string of digits, read most significant digit first. */
  function DigitsValue(s: string): nat
    requires forall i :: 0 <= i < |s| ==> IsDigit(s[i])
  {
    if |s| == 0 then 0
    else 10 * DigitsValue(s[..|s| - 1]) + DigitValue(s[|s| - 1])
  }

  /** Conversion of a string to a number; defined on plain decimal numerals. */
  function ParseNat(s: string): (r: Option<nat>)
    ensures r.Some? <==> IsNumeral(s)
  {
    if IsNumeral(s) then Some(DigitsValue(s)) else None
  }

  /** The decimal representation of a number, without leading zeros. */
  function NatToString(n: nat): (s: string)
    ensures IsNumeral(s)
    ensures |s| == 1 || s[0] != '0'
    decreases n
  {
    if n < 10 then [Digit(n)] else NatToString(n / 10) + [Digit(n % 10)]
  }

  lemma {:induction false} ParseNatToString(n: nat)
    ensures ParseNat(NatToString(n)) == Some(n)
  {
    var s := NatToString(n);
    if n >= 10 {
      ParseNatToString(n / 10);
      assert s[..|s| - 1] == NatToString(n / 10);
      assert DigitValue(s[|s| - 1]) == n % 10;
      assert DigitsValue(s) == 10 * (n / 10) + n % 10;
    }
  }

  /** Decimal numerals are ASCII. */
  lemma NumeralIsAscii(s: string)
    requires IsNumeral(s)
    ensures IsAscii(s)
  {
  }

  /** The record written for `item`: the item mapped to its digest. */
  function WriteRecord(item: string, hash: string -> string): (r: Record)
    ensures IsNumeral(item) ==> ParseNat(item).Some? && ReadRecord(r, hash) == Ok(ParseNat(item).value)
  {
    [Entry(item, hash(item))]
  }

  /** The value the loaded object holds for `key`: that of the last entry with this key, if any. */
  function ValueOf(rec: Record, key: string): string
  {
    if |rec| == 0 then ""
    else if rec[|rec| - 1].key == key then rec[|rec| - 1].value
    else ValueOf(rec[..|rec| - 1], key)
  }

  /** For a key that occurs, `ValueOf` is the value of its last occurrence. */
  lemma {:induction false} ValueOfIsLast(rec: Record, key: string, i: int)
    requires 0 <= i < |rec| && rec[i].key == key
    ensures exists k :: i <= k < |rec| && rec[k].key == key && rec[k].value == ValueOf(rec, key) &&
                        forall j :: k < j < |rec| ==> rec[j].key != key
  {
    var n := |rec| - 1;
    if rec[n].key == key {
      assert rec[n].value == ValueOf(rec, key);
    } else {
      var init := rec[..n];
      assert ValueOf(rec, key) == ValueOf(init, key);
      ValueOfIsLast(init, key, i);
      var k :| i <= k < n && init[k].key == key && init[k].value == ValueOf(init, key) &&
                forall j :: k < j < n ==> init[j].key != key;
      assert forall j :: k <= j < n ==> rec[j] == init[j];
    }
  }

  /**
   * Reading a record back: the first key of the loaded object and its value,
   * then the checks in the order the program makes them.
   */
  function ReadRecord(rec: Record, hash: string -> string): (r: Result<nat, ReadError>)
    ensures |rec| == 0 ==> r == Err(EmptyRecord)
    ensures |rec| > 0 && !IsAscii(rec[0].key) ==> r == Err(NotAscii)
    ensures |rec| > 0 && IsAscii(rec[0].key) && hash(rec[0].key) != ValueOf(rec, rec[0].key) ==>
      r == Err(HashMismatch)
    ensures r.Ok? <==>
      |rec| > 0 && IsAscii(rec[0].key) && hash(rec[0].key) == ValueOf(rec, rec[0].key) &&
      IsNumeral(rec[0].key)
    ensures r.Ok? ==> ParseNat(rec[0].key) == Some(r.value)
  {
    if |rec| == 0 then Err(EmptyRecord)
    else
      var key := rec[0].key;
      var value := ValueOf(rec, key);
      if !IsAscii(key) then Err(NotAscii)
      else if hash(key) != value then Err(HashMismatch)
      else match ParseNat(key)
        case Some(n) => Ok(n)
        case None => Err(NotANumber)
  }

  /** A repeated key is checked against its last value, not its first. */
  lemma RepeatedKeyUsesLastValue(n: nat, hash: string -> string, forged: string)
    requires forged != hash(NatToString(n))
    ensures ReadRecord([Entry(NatToString(n), hash(NatToString(n))), Entry(NatToString(n), forged)], hash)
            == Err(HashMismatch)
    ensures ReadRecord([Entry(NatToString(n), forged), Entry(NatToString(n), hash(NatToString(n)))], hash)
            == Ok(n)
  {
    NumeralIsAscii(NatToString(n));
    ParseNatToString(n);
  }

  /** A score written to the file reads back as the same score, whatever the digest function. */
  lemma {:induction false} RecordRoundTrip(n: nat, hash: string -> string)
    ensures ReadRecord(WriteRecord(NatToString(n), hash), hash) == Ok(n)
  {
    ParseNatToString(n);
  }

  /** A record whose digest was changed without changing the key is rejected. */
  lemma TamperedRecordRejected(n: nat, hash: string -> string, forged: string)
    requires forged != hash(NatToString(n))
    ensures ReadRecord([Entry(NatToString(n), forged)], hash) == Err(HashMismatch)
  {
    NumeralIsAscii(NatToString(n));
  }
}
