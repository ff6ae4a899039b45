/** Errors, file metadata and names of the NTFS driver. */
module NtfsTypes {
  import opened Wrappers
  import opened Text
  import opened Bytes

  /** `Panicked` stands for a failed index, assertion or checked arithmetic operation of the program. */
  datatype NtfsError =
    | InvalidMftRecord | InvalidAttribute | FileNotFound | IoError | NotADirectory | NotAFile
    | CorruptedFilesystem | NoSpace | AlreadyExists | NotSupported | NameTooLong | InvalidInput | InvalidBootSector
    | Panicked

  type Outcome<+T> = Result<T, NtfsError>

  datatype DataRun = Resident(data: seq<Byte>) | NonResident(runs: seq<(nat, nat)>)

  datatype Stream = Stream(name: string, size: nat, data: DataRun)

  datatype NtfsStat = NtfsStat(
    isDirectory: bool, size: nat, name: Option<string>, dataRuns: seq<DataRun>,
    indexRoot: Option<seq<Byte>>, streams: seq<Stream>)

  // ----- Names

  /** The UTF-16 units of one character. */
  function CharUnits(c: char): (units: seq<U16>)
    ensures 1 <= |units| <= 2
  {
    var n := c as int;
    if n < 0x1_0000 then [n]
    else [0xD800 + (n - 0x1_0000) / 0x400 % 0x400, 0xDC00 + (n - 0x1_0000) % 0x400]
  }

  /** `encode_utf16`. */
  function Utf16(s: string): (units: seq<U16>)
    ensures s != [] ==> units != []
  {
    if s == [] then [] else CharUnits(s[0]) + Utf16(s[1..])
  }

  /** A character is one unit that is no surrogate, or a pair of surrogates that hold twenty bits above 2^16
      (section 2 of RFC 2781). */
  lemma CharUnitsDecode(c: char)
    ensures var u := CharUnits(c);
      if |u| == 1 then u[0] == c as int && !(0xD800 <= u[0] < 0xE000)
      else
        && 0xD800 <= u[0] < 0xDC00 <= u[1] < 0xE000
        && c as int == 0x1_0000 + (u[0] as int - 0xD800) * 0x400 + (u[1] as int - 0xDC00)
  {
  }

  /** The length of a name in UTF-8 bytes. */
  function Utf8Length(s: string): nat {
    if s == [] then 0
    else
      var n := s[0] as int;
      (if n < 0x80 then 1 else if n < 0x800 then 2 else if n < 0x1_0000 then 3 else 4) + Utf8Length(s[1..])
  }

  /** The UTF-8 encoding of one character (section 3 of RFC 3629). */
  ghost function Utf8Char(c: char): seq<Byte> {
    var n := c as int;
    if n <= 0x7F then [n]
    else if n <= 0x7FF then [0xC0 + n / 0x40, 0x80 + n % 0x40]
    else if n <= 0xFFFF then [0xE0 + n / 0x1000, 0x80 + n / 0x40 % 0x40, 0x80 + n % 0x40]
    else [0xF0 + n / 0x4_0000, 0x80 + n / 0x1000 % 0x40, 0x80 + n / 0x40 % 0x40, 0x80 + n % 0x40]
  }

  ghost function Utf8(s: string): seq<Byte> {
    if s == [] then [] else Utf8Char(s[0]) + Utf8(s[1..])
  }

  /** The number that the bytes of an encoded character denote, six bits in each byte behind the first. */
  ghost function Utf8Value(b: seq<Byte>): int {
    match |b|
    case 1 => b[0] as int
    case 2 => (b[0] as int - 0xC0) * 0x40 + (b[1] as int - 0x80)
    case 3 => (b[0] as int - 0xE0) * 0x1000 + (b[1] as int - 0x80) * 0x40 + (b[2] as int - 0x80)
    case 4 => (b[0] as int - 0xF0) * 0x4_0000 + (b[1] as int - 0x80) * 0x1000 + (b[2] as int - 0x80) * 0x40
              + (b[3] as int - 0x80)
    case _ => -1
  }

  /** The first byte of an encoded character tells how many follow, and its bytes tell the character. */
  lemma Utf8CharDecodes(c: char)
    ensures var b := Utf8Char(c);
      |b| == (if b[0] < 0x80 then 1 else if b[0] < 0xE0 then 2 else if b[0] < 0xF0 then 3 else 4)
    ensures Utf8Value(Utf8Char(c)) == c as int
  {
    SixBits(c as int);
  }

  lemma SixBits(n: nat)
    ensures n == n / 0x40 * 0x40 + n % 0x40
    ensures n == n / 0x1000 * 0x1000 + n / 0x40 % 0x40 * 0x40 + n % 0x40
    ensures n == n / 0x4_0000 * 0x4_0000 + n / 0x1000 % 0x40 * 0x1000 + n / 0x40 % 0x40 * 0x40 + n % 0x40
  {
    assert n / 0x1000 == n / 0x40 / 0x40 && n / 0x4_0000 == n / 0x1000 / 0x40;
  }

  /** The counted length is that of the encoding. */
  lemma {:induction false} Utf8LengthIs(s: string)
    ensures Utf8Length(s) == |Utf8(s)|
  {
    if s != [] {
      Utf8LengthIs(s[1..]);
    }
  }

  lemma {:induction false} Utf16NoLongerThanUtf8(s: string)
    ensures |Utf16(s)| <= Utf8Length(s)
  {
    if s != [] {
      Utf16NoLongerThanUtf8(s[1..]);
    }
  }

  /** How the driver turns stored units back into a name: it stops at a zero unit and shows
      everything outside ASCII as a question mark. */
  function DecodeUnits(units: seq<U16>): string {
    if units == [] || units[0] == 0 then []
    else [if units[0] < 128 then units[0] as char else '?'] + DecodeUnits(units[1..])
  }

  /** The name a stored name is read back as. */
  function ReadBack(s: string): string {
    DecodeUnits(Utf16(s))
  }

  /** A name survives being stored exactly when it consists of non-NUL ASCII characters. */
  lemma {:induction false} ReadBackExact(s: string)
    ensures ReadBack(s) == s <==> IsAscii(s)
  {
    if s != [] {
      var u := Utf16(s);
      ReadBackExact(s[1..]);
      if 0 < s[0] as int < 128 {
        assert u[1..] == Utf16(s[1..]);
        assert ReadBack(s) == [s[0]] + ReadBack(s[1..]);
        assert s == [s[0]] + s[1..];
        assert ReadBack(s) == s ==> ReadBack(s)[1..] == s[1..];
        assert IsAscii(s) <==> IsAscii(s[1..]);
      } else if s[0] as int != 0 {
        assert u[0] >= 128;
        assert ReadBack(s)[0] == '?';
      }
    }
  }

  function Lower(c: char): char {
    if 'A' <= c <= 'Z' then c - 'A' + 'a' else c
  }

  /** The twenty-six capitals have their small letters, and nothing else changes. */
  lemma LowerIs(c: char, i: nat)
    requires i < 26
    ensures Lower("ABCDEFGHIJKLMNOPQRSTUVWXYZ"[i]) == "abcdefghijklmnopqrstuvwxyz"[i]
    ensures Lower(c) != c ==> c in "ABCDEFGHIJKLMNOPQRSTUVWXYZ"
  {
    var capitals := "ABCDEFGHIJKLMNOPQRSTUVWXYZ";
    if Lower(c) != c {
      assert c == capitals[c as int - 'A' as int];
    }
  }

  /** `eq_ignore_ascii_case`. */
  predicate SameName(a: string, b: string) {
    |a| == |b| && forall i | 0 <= i < |a| :: Lower(a[i]) == Lower(b[i])
  }

  /** The first `n` units stored in `raw`. */
  function UnitsIn(raw: seq<Byte>, n: nat): (units: seq<U16>)
    requires 2 * n <= |raw|
    ensures |units| == n
    decreases n
  {
    if n == 0 then [] else [ReadU16(raw, 0)] + UnitsIn(raw[2..], n - 1)
  }

  lemma {:induction false} UnitsStored(units: seq<U16>, rest: seq<Byte>)
    ensures UnitsIn(UnitBytes(units) + rest, |units|) == units
  {
    if units != [] {
      var raw := UnitBytes(units) + rest;
      assert raw[0..2] == LE(2, units[0]) && raw[2..] == UnitBytes(units[1..]) + rest;
      Widths();
      ValueFits(2, units[0]);
      UnitsStored(units[1..], rest);
      assert units == [units[0]] + units[1..];
    }
  }
}
