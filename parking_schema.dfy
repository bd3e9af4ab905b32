/** The constraints the parking schema puts on a stored parking record. */
module ParkingSchema {
  import opened Wrappers

  datatype Color = Red | Green | Blue | Black | White | Yellow | Orange

  datatype Status = Parked | Left

  /** `status` defaults to PARKED when a record is created without one. */
  const DefaultStatus: Status := Parked

  /** A parking record. Every field the schema marks required is a field of the datatype,
      so a value of this type always has them; `color` and `status` range over their enums. */
  datatype Record = Record(
    lotId: string,
    registrationNumber: string,
    color: Color,
    slotNumber: int,
    status: Status)

  /** The spelling of a colour in requests, responses and stored documents. */
  function ColorName(c: Color): string {
    match c
    case Red => "RED"
    case Green => "GREEN"
    case Blue => "BLUE"
    case Black => "BLACK"
    case White => "WHITE"
    case Yellow => "YELLOW"
    case Orange => "ORANGE"
  }

  /** Membership of a string in the colour enumeration. */
  function ParseColor(s: string): (c: Option<Color>)
    ensures c.Some? ==> ColorName(c.value) == s
    ensures c.None? ==> forall k: Color :: ColorName(k) != s
  {
    if s == "RED" then Some(Red)
    else if s == "GREEN" then Some(Green)
    else if s == "BLUE" then Some(Blue)
    else if s == "BLACK" then Some(Black)
    else if s == "WHITE" then Some(White)
    else if s == "YELLOW" then Some(Yellow)
    else if s == "ORANGE" then Some(Orange)
    else None
  }

  /** A record built from a request; `status` is left to its default. */
  function NewRecord(lotId: string, registrationNumber: string, color: Color, slotNumber: int): (r: Record)
    ensures r.status == Parked
    ensures r.lotId == lotId && r.registrationNumber == registrationNumber
    ensures r.color == color && r.slotNumber == slotNumber
  {
    Record(lotId, registrationNumber, color, slotNumber, DefaultStatus)
  }

  predicate IsUpper(ch: char) {
    'A' <= ch <= 'Z'
  }

  predicate IsDigit(ch: char) {
    '0' <= ch <= '9'
  }

  predicate AllUpper(s: string) {
    forall i :: 0 <= i < |s| ==> IsUpper(s[i])
  }

  predicate AllDigits(s: string) {
    forall i :: 0 <= i < |s| ==> IsDigit(s[i])
  }

  /**
   * The plate pattern `^[A-Z]{2}\d{2}[A-Z]{1,2}\d{lo,hi}$`, matched left to right:
   * two letters, two digits, then the letter series is as long as the letters run
   * (one or two), and everything after it must be `lo` to `hi` digits.
   */
  predicate PlateMatches(s: string, lo: nat, hi: nat) {
    && |s| >= 5
    && IsUpper(s[0]) && IsUpper(s[1]) && IsDigit(s[2]) && IsDigit(s[3]) && IsUpper(s[4])
    && var series := if |s| > 5 && IsUpper(s[5]) then 2 else 1;
       AllDigits(s[4 + series..]) && lo <= |s| - 4 - series <= hi
  }

  /** Reference reading of the same pattern: `s` cuts into four parts, in order,
      with a letter series of length `k`. */
  ghost predicate SplitsAsPlate(s: string, k: nat, lo: nat, hi: nat) {
    && 1 <= k <= 2
    && 4 + k <= |s|
    && AllUpper(s[..2]) && AllDigits(s[2..4]) && AllUpper(s[4..4 + k]) && AllDigits(s[4 + k..])
    && lo <= |s| - 4 - k <= hi
  }

  ghost predicate HasPlateParts(s: string, lo: nat, hi: nat) {
    exists k: nat :: SplitsAsPlate(s, k, lo, hi)
  }

  /** The matcher accepts a string exactly when it cuts into the four parts. */
  lemma PlateMatchesIffParts(s: string, lo: nat, hi: nat)
    ensures PlateMatches(s, lo, hi) <==> HasPlateParts(s, lo, hi)
  {
    if PlateMatches(s, lo, hi) {
      var k: nat := if |s| > 5 && IsUpper(s[5]) then 2 else 1;
      assert SplitsAsPlate(s, k, lo, hi);
    }
    if HasPlateParts(s, lo, hi) {
      var k: nat :| SplitsAsPlate(s, k, lo, hi);
      assert s[..2][0] == s[0] && s[..2][1] == s[1];
      assert s[2..4][0] == s[2] && s[2..4][1] == s[3];
      assert s[4..4 + k][0] == s[4];
      if k == 1 && |s| > 5 {
        assert s[5..][0] == s[5];
      }
      if k == 2 {
        assert s[4..4 + k][1] == s[5];
      }
    }
  }

  /** The schema's validator: `^[A-Z]{2}\d{2}[A-Z]{1,2}\d{1,4}$`. */
  predicate SchemaPlate(s: string) {
    PlateMatches(s, 1, 4)
  }

  /** A record the schema accepts on save. */
  predicate RecordValid(r: Record) {
    r.lotId != "" && SchemaPlate(r.registrationNumber)
  }
}
