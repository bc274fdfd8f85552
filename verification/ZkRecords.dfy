/**
 The 40-byte attendance record: the printer a terminal's memory dump follows and the parser
 that reads the dump back.
 */
module ZkRecords {
  import opened Bytes
  import opened Text
  import opened ZkProtocol

  datatype AttendanceRecord = AttendanceRecord(
    uid: u16,
    userId: string,
    status: byte,
    punch: byte,
    localTime: DeviceLocalTime
  )

  predicate IsAscii(s: string) {
    forall i :: 0 <= i < |s| ==> s[i] as int < 128
  }

  // One byte per UTF-16 unit, its low one: both surrogates start on a multiple of 0x400.
  function UnitBytes(c: char): (b: seq<byte>)
    ensures 1 <= |b| <= 2
  {
    var n := c as int;
    if n < 0x1_0000 then [n % 256] else [(n - 0x1_0000) / 0x400 % 256, n % 256]
  }

  /** Beyond 16 bits the text holds a surrogate pair, of which a byte each is written; else the one unit's low byte. */
  lemma UnitsWritten(c: char)
    ensures (c as int) < 0x1_0000 ==> UnitBytes(c) == [c as int % 256]
    ensures (c as int) >= 0x1_0000 ==>
              exists high, low ::
                && 0xD800 <= high < 0xDC00 <= low < 0xE000
                && c as int == 0x1_0000 + (high - 0xD800) * 0x400 + (low - 0xDC00)
                && UnitBytes(c) == [high % 256, low % 256]
  {
    var n := c as int - 0x1_0000;
    if n >= 0 {
      var high, low := 0xD800 + n / 0x400, 0xDC00 + n % 0x400;
      assert UnitBytes(c) == [high % 256, low % 256];
    }
  }

  // `buffer.write(text, 'ascii')`, for as much of it as there is room.
  function AsciiBytes(s: string): (b: seq<byte>)
    ensures |b| >= |s|
  {
    if s == "" then [] else UnitBytes(s[0]) + AsciiBytes(s[1..])
  }

  lemma {:induction false} AsciiIsItself(s: string)
    requires IsAscii(s)
    ensures |AsciiBytes(s)| == |s| && forall i :: 0 <= i < |s| ==> AsciiBytes(s)[i] == s[i] as int
  {
    if s != "" {
      AsciiIsItself(s[1..]);
    }
  }

  // `buffer.toString('ascii')`: one character per byte, the high bit dropped.
  function AsciiText(b: seq<byte>): (s: string)
    ensures |s| == |b|
  {
    seq(|b|, i requires 0 <= i < |b| => (b[i] % 128) as char)
  }

  /** `buffer.indexOf(0)`, or the length when there is none. */
  function NulAt(b: seq<byte>): (n: nat)
    ensures n <= |b|
  {
    if b == [] || b[0] == 0 then 0 else 1 + NulAt(b[1..])
  }

  function ReadCString(b: seq<byte>): string {
    Trim(AsciiText(b[..NulAt(b)]))
  }

  /**
   The record a terminal stores. The name field is written first and the fields after it later,
   so a name longer than 24 characters is overwritten from byte 26 to 31 and cut at byte 40.
   */
  function RecordBytes(r: AttendanceRecord): (b: seq<byte>)
    requires r.localTime.Valid()
    ensures |b| == ATTENDANCE_RECORD_SIZE
  {
    var name := (AsciiBytes(r.userId) + Zeros(38))[..38];
    U16LE(r.uid) + name[..24] + [r.status] + U32LE(EncodeTime(r.localTime)) + [r.punch] + name[30..]
  }

  /** The name field and what is left of it once the later fields are written over its end. */
  lemma NameField(text: seq<byte>, name: seq<byte>)
    requires name == text[..if |text| <= 38 then |text| else 38]
    ensures name + Zeros(38 - |name|) == (text + Zeros(38))[..38]
  {
  }

  /** The fields written over the end of the name. */
  lemma Overwritten(uid: seq<byte>, field: seq<byte>, status: byte, time: seq<byte>, punch: byte)
    requires |uid| == 2 && |field| == 38 && |time| == 4
    ensures var named: seq<byte> := uid + field;
            var marked: seq<byte> := named[26 := status];
            var timed: seq<byte> := marked[..27] + time + marked[31..];
            timed[31 := punch] == uid + field[..24] + [status] + time + [punch] + field[30..]
  {
  }

  method WriteAttendanceRecord(r: AttendanceRecord) returns (record: array<byte>)
    requires r.localTime.Valid()
    ensures fresh(record) && record[..] == RecordBytes(r)
  {
    hide AsciiBytes, EncodeTime;
    ghost var uid, time := U16LE(r.uid), U32LE(EncodeTime(r.localTime));
    record := new byte[40](i => 0);
    WriteU16LE(record, r.uid, 0);
    assert record[..] == uid + Zeros(38);
    var text := AsciiBytes(r.userId);
    var name := text[..if |text| <= 38 then |text| else 38];
    CopyInto(name, record, 2);
    NameField(text, name);
    ghost var field := (text + Zeros(38))[..38];
    NameWritten(uid, name);
    ghost var named: seq<byte> := uid + field;
    assert record[..] == named;
    record[26] := r.status;
    assert record[..] == named[26 := r.status];
    WriteU32LE(record, EncodeTime(r.localTime), 27);
    ghost var timed: seq<byte> := record[..];
    record[31] := r.punch;
    assert record[..] == timed[31 := r.punch];
    Overwritten(uid, field, r.status, time, r.punch);
  }

  lemma NameWritten(uid: seq<byte>, name: seq<byte>)
    requires |uid| == 2 && |name| <= 38
    ensures (uid + Zeros(38))[..2] + name + (uid + Zeros(38))[2 + |name|..] == uid + (name + Zeros(38 - |name|))
  {
  }

  function ParseRecord(chunk: seq<byte>): AttendanceRecord
    requires |chunk| == ATTENDANCE_RECORD_SIZE
  {
    AttendanceRecord(ReadU16LE(chunk, 0), ReadCString(chunk[2..26]), chunk[26], chunk[31],
                     DecodeTime(ReadU32LE(chunk, 27)))
  }

  /** The records of a dump, empty slots skipped and an incomplete tail ignored. */
  function ParseRecords(data: seq<byte>): seq<AttendanceRecord> {
    if |data| < ATTENDANCE_RECORD_SIZE then []
    else
      var r := ParseRecord(data[..ATTENDANCE_RECORD_SIZE]);
      (if r.userId == "" then [] else [r]) + ParseRecords(data[ATTENDANCE_RECORD_SIZE..])
  }

  /** One pass of the loop: what is still to parse gives up its first slot. */
  lemma ParseStep(data: seq<byte>, offset: nat, parsed: seq<AttendanceRecord>, record: AttendanceRecord)
    requires offset + ATTENDANCE_RECORD_SIZE <= |data|
    requires record == ParseRecord(data[offset..offset + ATTENDANCE_RECORD_SIZE])
    ensures parsed + ParseRecords(data[offset..])
         == (if record.userId == "" then parsed
             else parsed + [record]) + ParseRecords(data[offset + ATTENDANCE_RECORD_SIZE..])
  {
    hide ParseRecord;
    var rest := data[offset..];
    assert data[offset..offset + ATTENDANCE_RECORD_SIZE] == rest[..ATTENDANCE_RECORD_SIZE];
    assert data[offset + ATTENDANCE_RECORD_SIZE..] == rest[ATTENDANCE_RECORD_SIZE..];
  }

  method ParseAttendanceRecords(data: seq<byte>) returns (records: seq<AttendanceRecord>)
    ensures records == ParseRecords(data)
  {
    records := [];
    var offset := 0;
    while offset + ATTENDANCE_RECORD_SIZE <= |data|
      invariant offset <= |data|
      invariant records + ParseRecords(data[offset..]) == ParseRecords(data)
    {
      var record := ParseRecord(data[offset..offset + ATTENDANCE_RECORD_SIZE]);
      ParseStep(data, offset, records, record);
      if record.userId != "" {
        records := records + [record];
      }
      offset := offset + ATTENDANCE_RECORD_SIZE;
    }
  }

  predicate TimesValid(records: seq<AttendanceRecord>) {
    forall i :: 0 <= i < |records| ==> records[i].localTime.Valid()
  }

  function Dump(records: seq<AttendanceRecord>): (b: seq<byte>)
    requires TimesValid(records)
    ensures |b| == ATTENDANCE_RECORD_SIZE * |records|
  {
    if records == [] then [] else RecordBytes(records[0]) + Dump(records[1..])
  }

  // ---------------------------------------------------------------- round trip

  /** What the record can carry: 1 to 24 ASCII characters, no NUL, no blank at either end. */
  predicate Storable(userId: string) {
    && 1 <= |userId| <= 24
    && IsAscii(userId)
    && '\0' !in userId
    && NoOuterSpace(userId)
  }

  predicate Faithful(r: AttendanceRecord) {
    Storable(r.userId) && 2000 <= r.localTime.year <= 2099
  }

  lemma {:induction false} NulAtName(name: seq<byte>, pad: nat)
    ensures NulAt(name + Zeros(pad)) == NulAt(name)
    ensures 0 !in name ==> NulAt(name) == |name|
  {
    if name == [] {
      assert name + Zeros(pad) == Zeros(pad);
    } else {
      assert (name + Zeros(pad))[1..] == name[1..] + Zeros(pad);
      NulAtName(name[1..], pad);
    }
  }

  lemma TextOfAscii(s: string)
    requires IsAscii(s)
    ensures AsciiText(AsciiBytes(s)) == s
    ensures '\0' !in s ==> 0 !in AsciiBytes(s)
  {
    AsciiIsItself(s);
    hide AsciiBytes;
    forall i | 0 <= i < |s| ensures (s[i] as int) as char == s[i] {}
  }

  lemma ReadBackName(s: string, pad: nat)
    requires IsAscii(s) && '\0' !in s
    ensures ReadCString(AsciiBytes(s) + Zeros(pad)) == Trim(s)
  {
    var b := AsciiBytes(s);
    TextOfAscii(s);
    NulAtName(b, pad);
    assert (b + Zeros(pad))[..|b|] == b;
    hide AsciiBytes, AsciiText, NulAt, Trim, IsAscii;
  }

  lemma NulCutsName(s: string, pad: nat)
    requires IsAscii(s) && '\0' in s
    ensures |ReadCString(AsciiBytes(s) + Zeros(pad))| < |s|
  {
    var b := AsciiBytes(s);
    AsciiIsItself(s);
    var i :| 0 <= i < |s| && s[i] == '\0';
    assert b[i] == 0;
    FirstNul(b, i);
    NulAtName(b, pad);
    var text := AsciiText((b + Zeros(pad))[..NulAt(b)]);
    TrimStartShrinks(text);
    TrimEndShrinks(TrimStart(text));
  }

  lemma {:induction false} FirstNul(b: seq<byte>, i: nat)
    requires i < |b| && b[i] == 0
    ensures NulAt(b) <= i
  {
    if b[0] != 0 {
      FirstNul(b[1..], i - 1);
    }
  }

  lemma RecordLayout(r: AttendanceRecord)
    requires r.localTime.Valid() && IsAscii(r.userId) && |r.userId| <= 24
    ensures var b := RecordBytes(r);
            && b[0..2] == U16LE(r.uid)
            && b[2..26] == AsciiBytes(r.userId) + Zeros(24 - |r.userId|)
            && b[26] == r.status
            && b[27..31] == U32LE(EncodeTime(r.localTime))
            && b[31] == r.punch
  {
    var text := AsciiBytes(r.userId);
    AsciiIsItself(r.userId);
    var name := (text + Zeros(38))[..38];
    assert name[..24] == text + Zeros(24 - |text|);
    var time := U32LE(EncodeTime(r.localTime));
    assert RecordBytes(r) == U16LE(r.uid) + (name[..24] + ([r.status] + (time + ([r.punch] + name[30..]))));
  }

  lemma RecordFields(r: AttendanceRecord)
    requires r.localTime.Valid() && IsAscii(r.userId) && |r.userId| <= 24
    ensures var p := ParseRecord(RecordBytes(r));
            && p.(userId := "") == r.(userId := "", localTime := DecodeTime(EncodeTime(r.localTime)))
            && p.userId == ReadCString(AsciiBytes(r.userId) + Zeros(24 - |r.userId|))
  {
    RecordLayout(r);
    ReadBackU16(RecordBytes(r), 0, r.uid);
    ReadBackU32(RecordBytes(r), 27, EncodeTime(r.localTime));
  }

  /** Whatever was stored, what is read back is ASCII and fits the field. */
  lemma ReadIsShort(b: seq<byte>)
    ensures |ReadCString(b)| <= |b| && IsAscii(ReadCString(b))
  {
    var text := AsciiText(b[..NulAt(b)]);
    TrimStartShrinks(text);
    TrimEndShrinks(TrimStart(text));
    TrimStartSuffix(text);
    forall i | 0 <= i < |ReadCString(b)| ensures ReadCString(b)[i] as int < 128 {
      assert ReadCString(b)[i] == TrimStart(text)[i];
      assert TrimStart(text)[i] in text;
    }
  }

  lemma {:induction false} TrimStartSuffix(s: string)
    ensures forall c :: c in TrimStart(s) ==> c in s
  {
    if s != "" && IsSpace(s[0]) {
      TrimStartSuffix(s[1..]);
    }
  }

  /** A stored record is read back exactly if and only if its identifier is storable and its year is in this century. */
  lemma RecordRoundTrip(r: AttendanceRecord)
    requires r.localTime.Valid() && r.userId != ""
    ensures ParseRecord(RecordBytes(r)) == r <==> Faithful(r)
  {
    if |r.userId| <= 24 && IsAscii(r.userId) {
      RecordFields(r);
      DecodeEncodeTime(r.localTime);
      if '\0' in r.userId {
        NulCutsName(r.userId, 24 - |r.userId|);
      } else {
        ReadBackName(r.userId, 24 - |r.userId|);
        TrimFixpoint(r.userId);
      }
    } else {
      ReadIsShort(RecordBytes(r)[2..26]);
    }
  }

  lemma {:induction false} ParsedAtMost(data: seq<byte>)
    ensures |ParseRecords(data)| * ATTENDANCE_RECORD_SIZE <= |data|
    ensures forall i :: 0 <= i < |ParseRecords(data)| ==> ParseRecords(data)[i].userId != ""
  {
    if |data| >= ATTENDANCE_RECORD_SIZE {
      ParsedAtMost(data[ATTENDANCE_RECORD_SIZE..]);
    }
  }

  lemma DumpHead(records: seq<AttendanceRecord>)
    requires TimesValid(records) && records != []
    ensures var head := ParseRecord(RecordBytes(records[0]));
            ParseRecords(Dump(records)) == (if head.userId == "" then [] else [head]) + ParseRecords(Dump(records[1..]))
  {
    var data := Dump(records);
    assert data[..ATTENDANCE_RECORD_SIZE] == RecordBytes(records[0]);
    assert data[ATTENDANCE_RECORD_SIZE..] == Dump(records[1..]);
    hide RecordBytes, ParseRecord;
  }

  /** Parsing a dump yields exactly the records stored, in order, if and only if each can be read back. */
  lemma {:induction false} DumpRoundTrip(records: seq<AttendanceRecord>)
    requires TimesValid(records)
    ensures ParseRecords(Dump(records)) == records <==> forall i :: 0 <= i < |records| ==> Faithful(records[i])
  {
    hide ParseRecord, RecordBytes;
    if records != [] {
      var r, rest := records[0], records[1..];
      DumpHead(records);
      hide ParseRecords, Dump;
      ParsedAtMost(Dump(rest));
      ParsedAtMost(Dump(records));
      DumpRoundTrip(rest);
      if r.userId != "" {
        RecordRoundTrip(r);
      }
      assert records == [r] + rest;
    }
  }
}
