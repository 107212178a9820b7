/**
 * The binary stream that parts travel in. A byte is a character below 256, so that names, contents and numbers share
 * one type; numbers are 64-bit little-endian words and strings carry their length in front, seven bits a byte.
 */
module Wire {

  datatype Error =
    | EndOfStream
    | BadTtlFormat
    | UnknownPartType
    | ChecksumMismatch(name: string)
    | UnexpectedCookie
    | UnknownUniqueId
    | ExtraData
    | MissingFile
    | ChecksumsDiffer

  datatype Result<+T> = Ok(value: T) | Fail(error: Error) {
    predicate IsFailure() { Fail? }

    function PropagateFailure<U>(): Result<U>
      requires Fail?
    {
      Fail(error)
    }

    function Extract(): T
      requires Ok?
    {
      value
    }
  }

  /** What was read, and what is left to read. */
  datatype Parsed<+T> = Parsed(value: T, rest: string)

  const WORD := 0x1_0000_0000_0000_0000

  // ---- numbers ----

  function Power256(k: nat): (p: nat)
    ensures p > 0
  {
    if k == 0 then 1 else 256 * Power256(k - 1)
  }

  function LittleEndian(n: nat, k: nat): (s: string)
    ensures |s| == k
    decreases k
  {
    if k == 0 then "" else [(n % 256) as char] + LittleEndian(n / 256, k - 1)
  }

  function FromLittleEndian(s: string): nat {
    if s == "" then 0 else s[0] as int + 256 * FromLittleEndian(s[1..])
  }

  lemma {:induction false} LittleEndianRoundTrip(n: nat, k: nat)
    requires n < Power256(k)
    ensures FromLittleEndian(LittleEndian(n, k)) == n
  {
    if k > 0 {
      LittleEndianRoundTrip(n / 256, k - 1);
      assert LittleEndian(n, k)[1..] == LittleEndian(n / 256, k - 1);
    }
  }

  function Word(n: nat): (s: string)
    requires n < WORD
    ensures |s| == 8
  {
    LittleEndian(n, 8)
  }

  lemma WordRoundTrip(n: nat)
    requires n < WORD
    ensures FromLittleEndian(Word(n)) == n
  {
    assert Power256(8) == 256 * (256 * (256 * (256 * (256 * (256 * (256 * (256 * Power256(0))))))));
    LittleEndianRoundTrip(n, 8);
  }

  function VarUInt(n: nat): (s: string)
    ensures s != ""
  {
    if n < 128 then [n as char] else [(128 + n % 128) as char] + VarUInt(n / 128)
  }

  function Text(t: string): string {
    VarUInt(|t|) + t
  }

  // ---- reading ----

  function ReadBytes(s: string, n: nat): Result<Parsed<string>> {
    if |s| < n then Fail(EndOfStream) else Ok(Parsed(s[..n], s[n..]))
  }

  function ReadWord(s: string): Result<Parsed<nat>> {
    var bytes :- ReadBytes(s, 8);
    Ok(Parsed(FromLittleEndian(bytes.value), bytes.rest))
  }

  function ReadVarUInt(s: string): Result<Parsed<nat>>
    decreases |s|
  {
    if s == "" then Fail(EndOfStream)
    else if s[0] as int < 128 then Ok(Parsed(s[0] as int, s[1..]))
    else
      var more :- ReadVarUInt(s[1..]);
      Ok(Parsed(s[0] as int - 128 + 128 * more.value, more.rest))
  }

  function ReadText(s: string): Result<Parsed<string>> {
    var size :- ReadVarUInt(s);
    ReadBytes(size.rest, size.value)
  }

  lemma ReadBytesWritten(t: string, more: string)
    ensures ReadBytes(t + more, |t|) == Ok(Parsed(t, more))
  {
    assert (t + more)[..|t|] == t && (t + more)[|t|..] == more;
  }

  lemma ReadWordWritten(n: nat, more: string)
    requires n < WORD
    ensures ReadWord(Word(n) + more) == Ok(Parsed(n, more))
  {
    ReadBytesWritten(Word(n), more);
    WordRoundTrip(n);
  }

  lemma {:induction false} ReadVarUIntWritten(n: nat, more: string)
    ensures ReadVarUInt(VarUInt(n) + more) == Ok(Parsed(n, more))
  {
    var s := VarUInt(n) + more;
    if n < 128 {
      assert s[1..] == more;
    } else {
      ReadVarUIntWritten(n / 128, more);
      assert s[1..] == VarUInt(n / 128) + more;
    }
  }

  lemma ReadTextWritten(t: string, more: string)
    ensures ReadText(Text(t) + more) == Ok(Parsed(t, more))
  {
    assert Text(t) + more == VarUInt(|t|) + (t + more);
    ReadVarUIntWritten(|t|, t + more);
    ReadBytesWritten(t, more);
  }

  // ---- buffers ----

  class WriteBuffer {
    var data: string

    constructor ()
      ensures data == ""
    {
      data := "";
    }

    method Write(bytes: string)
      modifies this
      ensures data == old(data) + bytes
    {
      data := data + bytes;
    }

    method WriteWord(n: nat)
      requires n < WORD
      modifies this
      ensures data == old(data) + Word(n)
    {
      Write(Word(n));
    }

    method WriteText(t: string)
      modifies this
      ensures data == old(data) + Text(t)
    {
      Write(Text(t));
    }
  }

  /** A read did what the function on the unread bytes says. */
  ghost predicate Follows<T>(r: Result<T>, rest: string, parsed: Result<Parsed<T>>) {
    match parsed
    case Ok(p) => r == Ok(p.value) && rest == p.rest
    case Fail(e) => r == Fail(e)
  }

  class ReadBuffer {
    var rest: string

    constructor (data: string)
      ensures rest == data
    {
      rest := data;
    }

    method Read(n: nat) returns (r: Result<string>)
      modifies this
      ensures Follows(r, rest, ReadBytes(old(rest), n))
    {
      if |rest| < n {
        return Fail(EndOfStream);
      }
      r := Ok(rest[..n]);
      rest := rest[n..];
    }

    method ReadNumber() returns (r: Result<nat>)
      modifies this
      ensures Follows(r, rest, ReadWord(old(rest)))
    {
      var bytes :- Read(8);
      return Ok(FromLittleEndian(bytes));
    }

    method ReadString() returns (r: Result<string>)
      modifies this
      ensures Follows(r, rest, ReadText(old(rest)))
    {
      var size := ReadVarUInt(rest);
      if size.Fail? {
        return Fail(size.error);
      }
      rest := size.value.rest;
      r := Read(size.value.value);
    }
  }
}
