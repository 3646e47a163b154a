/**
 * The plain-text dump of `FileView.display_hex`: sixteen bytes per line, each as
 * two upper-case hex digits separated by single spaces, that part padded to 47
 * characters, then " | " and one character per byte (the byte itself when it is
 * printable ASCII 32..126, '.' otherwise); lines joined by newlines.
 */
module HexDump {
  import opened Common

  /** `16 * 3 - 1`, the width the hex part of a line is padded to. */
  const HexWidth: nat := 16 * 3 - 1

  function HexDigit(n: nat): char
    requires n < 16
  {
    if n < 10 then ('0' as int + n) as char else ('A' as int + n - 10) as char
  }

  predicate IsUpperHexDigit(c: char)
  {
    '0' <= c <= '9' || 'A' <= c <= 'F'
  }

  /** The value an upper-case hex digit stands for. */
  function DigitValue(c: char): nat
    requires IsUpperHexDigit(c)
  {
    if c <= '9' then c as int - '0' as int else c as int - 'A' as int + 10
  }

  /** `f'{byte:02X}'` */
  function HexByte(b: byte): string
  {
    [HexDigit(b / 16), HexDigit(b % 16)]
  }

  /** A token is two upper-case hex digits that read back as the byte. */
  lemma {:induction false} HexByteRoundTrip(b: byte)
    ensures |HexByte(b)| == 2
    ensures IsUpperHexDigit(HexByte(b)[0]) && IsUpperHexDigit(HexByte(b)[1])
    ensures DigitValue(HexByte(b)[0]) * 16 + DigitValue(HexByte(b)[1]) == b
  {
  }

  /** `chr(byte) if 32 <= byte <= 126 else '.'` */
  function AsciiChar(b: byte): char
  {
    if 32 <= b <= 126 then b as char else '.'
  }

  /** Python's `sep.join(parts)`. */
  function Join(parts: seq<string>, sep: string): string
  {
    if |parts| == 0 then ""
    else if |parts| == 1 then parts[0]
    else parts[0] + sep + Join(parts[1..], sep)
  }

  /** Python's `s.ljust(width)`: pad with spaces on the right, never truncate. */
  function LJust(s: string, width: nat): string
  {
    if |s| >= width then s else s + seq(width - |s|, _ => ' ')
  }

  function HexTokens(chunk: seq<byte>): seq<string>
  {
    seq(|chunk|, k requires 0 <= k < |chunk| => HexByte(chunk[k]))
  }

  function AsciiPart(chunk: seq<byte>): string
  {
    seq(|chunk|, k requires 0 <= k < |chunk| => AsciiChar(chunk[k]))
  }

  /** One line of the dump for a chunk of at most sixteen bytes. */
  function HexLine(chunk: seq<byte>): string
  {
    LJust(Join(HexTokens(chunk), " "), HexWidth) + " | " + AsciiPart(chunk)
  }

  /** The lines for `range(0, len(data), 16)`, one per sixteen-byte chunk. */
  function HexLines(data: seq<byte>): seq<string>
  {
    if data == [] then []
    else [HexLine(data[..Min(16, |data|)])] + HexLines(data[Min(16, |data|)..])
  }

  /** The text display_hex puts in the view when there is data to show. */
  function HexDumpText(data: seq<byte>): string
  {
    Join(HexLines(data), "\n")
  }

  /**
   * Joining two-character tokens with a one-character separator: 3n - 1
   * characters, token k at 3k, the separator right after each token but the last.
   */
  lemma {:induction false} JoinTokens(parts: seq<string>, c: char)
    requires |parts| >= 1
    requires forall k :: 0 <= k < |parts| ==> |parts[k]| == 2
    ensures |Join(parts, [c])| == 3 * |parts| - 1
    ensures forall k :: 0 <= k < |parts| ==> Join(parts, [c])[3 * k .. 3 * k + 2] == parts[k]
    ensures forall k :: 0 <= k < |parts| - 1 ==> Join(parts, [c])[3 * k .. 3 * k + 3] == parts[k] + [c]
  {
    if |parts| > 1 {
      var rest := parts[1..];
      JoinTokens(rest, c);
      var s := Join(parts, [c]);
      var t := Join(rest, [c]);
      assert s == parts[0] + [c] + t;
      forall k | 1 <= k < |parts|
        ensures s[3 * k .. 3 * k + 2] == parts[k]
      {
        assert rest[k - 1] == parts[k];
        assert s[3 * k .. 3 * k + 2] == t[3 * (k - 1) .. 3 * (k - 1) + 2];
      }
      forall k | 1 <= k < |parts| - 1
        ensures s[3 * k .. 3 * k + 3] == parts[k] + [c]
      {
        assert rest[k - 1] == parts[k];
        assert s[3 * k .. 3 * k + 3] == t[3 * (k - 1) .. 3 * (k - 1) + 3];
      }
    }
  }

  /** How often c occurs in s. */
  function CountChar(s: string, c: char): nat
  {
    if s == [] then 0 else (if s[0] == c then 1 else 0) + CountChar(s[1..], c)
  }

  lemma {:induction false} CountCharAppend(a: string, b: string, c: char)
    ensures CountChar(a + b, c) == CountChar(a, c) + CountChar(b, c)
  {
    if a == [] {
      assert a + b == b;
    } else {
      assert (a + b)[0] == a[0];
      assert (a + b)[1..] == a[1..] + b;
      CountCharAppend(a[1..], b, c);
    }
  }

  lemma {:induction false} CountCharAbsent(s: string, c: char)
    requires forall j :: 0 <= j < |s| ==> s[j] != c
    ensures CountChar(s, c) == 0
  {
    if s != [] {
      CountCharAbsent(s[1..], c);
    }
  }

  /** Joining parts that lack the separator character: the separator occurs |parts| - 1 times. */
  lemma {:induction false} JoinCount(parts: seq<string>, c: char)
    requires |parts| >= 1
    requires forall k, j :: 0 <= k < |parts| && 0 <= j < |parts[k]| ==> parts[k][j] != c
    ensures CountChar(Join(parts, [c]), c) == |parts| - 1
  {
    CountCharAbsent(parts[0], c);
    if |parts| > 1 {
      JoinCount(parts[1..], c);
      CountCharAppend(parts[0] + [c], Join(parts[1..], [c]), c);
      CountCharAppend(parts[0], [c], c);
    }
  }

  /** The exact layout of one line for a chunk of one to sixteen bytes. */
  lemma {:induction false} HexLineLayout(chunk: seq<byte>)
    requires 1 <= |chunk| <= 16
    ensures var line := HexLine(chunk);
      && |line| == HexWidth + 3 + |chunk|
      && (forall k :: 0 <= k < |chunk| ==> line[3 * k .. 3 * k + 2] == HexByte(chunk[k]))
      && (forall k :: 0 <= k < |chunk| - 1 ==> line[3 * k + 2] == ' ')
      && (forall j :: 3 * |chunk| - 1 <= j < HexWidth ==> line[j] == ' ')
      && line[HexWidth .. HexWidth + 3] == " | "
      && (forall k :: 0 <= k < |chunk| ==>
            line[HexWidth + 3 + k] == if 32 <= chunk[k] <= 126 then chunk[k] as char else '.')
  {
    var tokens := HexTokens(chunk);
    JoinTokens(tokens, ' ');
    var hex := Join(tokens, " ");
    var line := HexLine(chunk);
    assert line == LJust(hex, HexWidth) + " | " + AsciiPart(chunk);
    assert line[..|hex|] == hex;
    forall k | 0 <= k < |chunk|
      ensures line[3 * k .. 3 * k + 2] == HexByte(chunk[k])
    {
      assert tokens[k] == HexByte(chunk[k]);
      assert line[3 * k .. 3 * k + 2] == hex[3 * k .. 3 * k + 2];
    }
    forall k | 0 <= k < |chunk| - 1
      ensures line[3 * k + 2] == ' '
    {
      assert hex[3 * k .. 3 * k + 3] == tokens[k] + " ";
      assert line[3 * k + 2] == hex[3 * k .. 3 * k + 3][2];
    }
  }

  /** Every character of a line is printable: a line never holds a newline. */
  lemma {:induction false} HexLineHasNoNewline(chunk: seq<byte>)
    ensures forall j :: 0 <= j < |HexLine(chunk)| ==> HexLine(chunk)[j] != '\n'
  {
    var tokens := HexTokens(chunk);
    var hex := Join(tokens, " ");
    JoinPrintable(tokens, " ");
    var line := HexLine(chunk);
    assert line == LJust(hex, HexWidth) + " | " + AsciiPart(chunk);
  }

  predicate Printable(s: string)
  {
    forall j :: 0 <= j < |s| ==> ' ' <= s[j] <= '~'
  }

  lemma {:induction false} JoinPrintable(tokens: seq<string>, sep: string)
    requires Printable(sep)
    requires forall k :: 0 <= k < |tokens| ==> Printable(tokens[k])
    ensures Printable(Join(tokens, sep))
  {
    if |tokens| > 1 {
      JoinPrintable(tokens[1..], sep);
    }
  }

  lemma {:induction false} HexLinesCount(data: seq<byte>)
    ensures |HexLines(data)| == (|data| + 16 - 1) / 16
    decreases |data|
  {
    if data != [] {
      HexLinesCount(data[Min(16, |data|)..]);
    }
  }

  /** There are ceil(len / 16) lines; line k shows bytes [16k, min(16k + 16, len)). */
  lemma {:induction false} HexLinesShape(data: seq<byte>)
    ensures |HexLines(data)| == (|data| + 16 - 1) / 16
    ensures forall k :: 0 <= k < |HexLines(data)| ==>
      16 * k < |data| &&
      HexLines(data)[k] == HexLine(data[16 * k .. Min(16 * k + 16, |data|)])
    decreases |data|, 1
  {
    HexLinesCount(data);
    if data != [] {
      var m := Min(16, |data|);
      var rest := data[m..];
      var lines := HexLines(data);
      assert lines == [HexLine(data[..m])] + HexLines(rest);
      forall k | 1 <= k < |lines|
        ensures 16 * k < |data|
        ensures lines[k] == HexLine(data[16 * k .. Min(16 * k + 16, |data|)])
      {
        LineOfRest(data, m, k - 1);
      }
    }
  }

  /** Line k + 1 of the dump is line k of the dump of the bytes after the first line. */
  lemma {:induction false} LineOfRest(data: seq<byte>, m: nat, k: nat)
    requires m == Min(16, |data|) && k < |HexLines(data[m..])| && data != []
    ensures 16 * (k + 1) < |data|
    ensures HexLines(data)[k + 1] == HexLine(data[16 * (k + 1) .. Min(16 * (k + 1) + 16, |data|)])
    decreases |data|, 0
  {
    var rest := data[m..];
    HexLinesShape(rest);
    assert HexLines(data) == [HexLine(data[..m])] + HexLines(rest);
    RestSlice(data, m, k);
  }

  lemma {:induction false} RestSlice(data: seq<byte>, m: nat, k: nat)
    requires m == Min(16, |data|) && 16 * k < |data| - m
    ensures data[m..][16 * k .. Min(16 * k + 16, |data| - m)]
         == data[16 * (k + 1) .. Min(16 * (k + 1) + 16, |data|)]
  {
  }

  /** The dump is empty exactly for empty data; otherwise its lines are separated by ceil(len / 16) - 1 newlines. */
  lemma {:induction false} HexDumpLines(data: seq<byte>)
    ensures HexDumpText(data) == "" <==> data == []
    ensures data != [] ==> CountChar(HexDumpText(data), '\n') == (|data| + 16 - 1) / 16 - 1
  {
    HexLinesShape(data);
    var lines := HexLines(data);
    if data != [] {
      forall k, j | 0 <= k < |lines| && 0 <= j < |lines[k]|
        ensures lines[k][j] != '\n'
      {
        var d := data[16 * k .. Min(16 * k + 16, |data|)];
        HexLineHasNoNewline(d);
      }
      JoinCount(lines, '\n');
      var first := data[..Min(16, |data|)];
      HexLineLayout(first);
      assert |lines[0]| > 0;
      if |lines| > 1 {
        assert |HexDumpText(data)| >= |lines[0]|;
      }
    }
  }

  /** The loop of display_hex: one line per sixteen-byte chunk, then `'\n'.join(lines)`. */
  method FormatHexDump(data: seq<byte>) returns (text: string)
    ensures text == HexDumpText(data)
  {
    var lines: seq<string> := [];
    var i := 0;
    while i < |data|
      invariant lines + HexLines(data[Min(i, |data|)..]) == HexLines(data)
    {
      var chunk := data[i .. Min(i + 16, |data|)];
      assert data[i..][..Min(16, |data| - i)] == chunk;
      assert data[i..][Min(16, |data| - i)..] == data[Min(i + 16, |data|)..];
      lines := lines + [HexLine(chunk)];
      i := i + 16;
    }
    assert data[Min(i, |data|)..] == [];
    assert lines == HexLines(data);
    text := Join(lines, "\n");
  }
}
