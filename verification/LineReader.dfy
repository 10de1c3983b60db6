/** The batch line reader: a growing, sliding buffer over a file that is read in arbitrary short pieces. */
module LineReader {
  import opened Text

  const IO_SIZE: nat := 4096

  // ---------------------------------------------------------------------------------------------
  // The reference: splitting a text into lines
  // ---------------------------------------------------------------------------------------------

  /** One returned line: the text, and whether it was cut at the size limit. */
  datatype Piece = Piece(text: string, truncated: bool)

  /** The pieces put back together, with a newline after each one that was not cut. */
  function Join(pieces: seq<Piece>): string {
    if pieces == [] then ""
    else
      var last := pieces[|pieces| - 1];
      Join(pieces[..|pieces| - 1]) + last.text + (if last.truncated then "" else "\n")
  }

  function Texts(pieces: seq<Piece>): (r: seq<string>)
    ensures |r| == |pieces|
  {
    seq(|pieces|, k requires 0 <= k < |pieces| => pieces[k].text)
  }

  /** Index of the first newline, or the length. */
  function LineLength(t: string): (k: nat)
    ensures k <= |t| && '\n' !in t[..k]
    ensures k < |t| ==> t[k] == '\n'
  {
    if t == "" || t[0] == '\n' then 0 else 1 + LineLength(t[1..])
  }

  /** What is left after the first line and its newline. */
  function AfterLine(t: string): (r: string)
    ensures t != "" ==> |r| < |t|
  {
    var k := LineLength(t);
    if k < |t| then t[k + 1..] else ""
  }

  function SplitLines(t: string): seq<string>
    decreases |t|
  {
    if t == "" then [] else [t[..LineLength(t)]] + SplitLines(AfterLine(t))
  }

  lemma {:induction false} LineLengthIs(t: string, k: nat)
    requires k <= |t| && '\n' !in t[..k] && (k < |t| ==> t[k] == '\n')
    ensures LineLength(t) == k
  {
    if k > 0 {
      assert t[0] == t[..k][0] && t[..k][1..] == t[1..][..k - 1];
      LineLengthIs(t[1..], k - 1);
    }
  }

  lemma {:induction false} LineLengthAtLeast(t: string, k: nat)
    requires k <= |t| && '\n' !in t[..k]
    ensures k <= LineLength(t)
  {
    if k > 0 {
      assert t[0] == t[..k][0] && t[..k][1..] == t[1..][..k - 1];
      LineLengthAtLeast(t[1..], k - 1);
    }
  }

  /** What one call hands out of the unread text: a whole line, an unterminated last line, or a cut line. */
  ghost predicate Hands(unread: string, piece: Piece, unread': string) {
    && '\n' !in piece.text
    && if piece.truncated then piece.text != "" && unread == piece.text + unread'
       else || unread == piece.text + "\n" + unread'
            || (unread == piece.text != "" && unread' == "")
  }

  /** The calls that hand out `pieces` turn the unread text `u` into `rest`. */
  ghost predicate ReadsTo(u: string, pieces: seq<Piece>, rest: string)
    decreases |pieces|
  {
    if pieces == [] then u == rest
    else
      var before, last := pieces[..|pieces| - 1], pieces[|pieces| - 1];
      exists mid :: ReadsTo(u, before, mid) && Hands(mid, last, rest)
  }

  lemma ReadsOneMore(u: string, pieces: seq<Piece>, mid: string, piece: Piece, rest: string)
    requires ReadsTo(u, pieces, mid) && Hands(mid, piece, rest)
    ensures ReadsTo(u, pieces + [piece], rest) && |rest| < |mid|
  {
    assert (pieces + [piece])[..|pieces|] == pieces;
  }

  /** A line of this length can hit the size limit. */
  predicate TooLong(n: nat, maxSize: nat) {
    2 * (n + IO_SIZE) > maxSize
  }

  /** A line without the carriage return at its end. */
  function DropCR(t: string): string {
    if t != "" && t[|t| - 1] == '\r' then t[..|t| - 1] else t
  }

  /** One carriage return at the end goes, and nothing else. */
  lemma CarriageReturn(t: string)
    ensures DropCR(t + "\r") == t && (t == "" || t[|t| - 1] != '\r' ==> DropCR(t) == t)
  {
    assert (t + "\r")[..|t|] == t;
  }

  lemma HandsWhole(unread: string, whole: string, file: string, line: string, rest: string)
    requires whole == line + "\n" + rest && '\n' !in line
    requires whole + file == unread || (file == rest == "" && whole == unread + "\n" && unread != "")
    ensures Hands(unread, Piece(line, false), rest + file)
  {
    if whole + file == unread {
      assert line + "\n" + rest + file == line + "\n" + (rest + file);
    } else {
      assert whole[..|unread|] == unread && whole[..|line|] == line;
    }
  }

  // ---------------------------------------------------------------------------------------------
  // The reader
  // ---------------------------------------------------------------------------------------------

  ghost predicate CutsAreLong(pieces: seq<Piece>, maxSize: nat) {
    forall k :: 0 <= k < |pieces| ==> pieces[k].truncated ==> TooLong(|pieces[k].text|, maxSize)
  }

  lemma CutsOneMore(pieces: seq<Piece>, piece: Piece, maxSize: nat)
    requires CutsAreLong(pieces, maxSize) && (piece.truncated ==> TooLong(|piece.text|, maxSize))
    ensures CutsAreLong(pieces + [piece], maxSize)
  {
  }

  class LineBuffer {
    var file: string          // what the file still holds
    var buffer: array<char>
    var end: nat              // the pointers of the source, as offsets into the buffer
    var startOfLine: nat
    var endOfLine: nat
    var bufread: nat
    var eof: bool
    var maxSize: nat
    var truncated: bool
    var readLength: nat

    ghost predicate Valid()
      reads this, buffer
    {
      && startOfLine <= endOfLine <= end < buffer.Length
      && buffer[end] == NUL
      && (!eof ==> IO_SIZE <= bufread && end <= bufread && buffer.Length == bufread + 1)
      && (eof ==> file == "" && (end == endOfLine || buffer[end - 1] == '\n'))
    }

    /** The text no caller has seen yet. */
    ghost function Unread(): string
      reads this, buffer
      requires Valid()
    {
      buffer[endOfLine..end] + file
    }

    /** `init_line_buffer`, for a file with the given content. */
    constructor (content: string, maxSize: nat)
      ensures Valid() && fresh(buffer) && Unread() == content
      ensures this.maxSize == maxSize && bufread == IO_SIZE && !eof
    {
      var b := new char[IO_SIZE + 1];
      b[0] := NUL;
      file, buffer, bufread, this.maxSize := content, b, IO_SIZE, maxSize;
      end, startOfLine, endOfLine, eof, truncated, readLength := 0, 0, 0, false, false, 0;
    }

    /** `read(2)`: some nonempty part of what is left, nothing only at the end of the file. */
    method Read(count: nat) returns (data: string)
      requires count > 0
      modifies this`file
      ensures |data| <= count && old(file) == data + file
      ensures data == "" <==> old(file) == ""
    {
      if file == "" {
        return "";
      }
      var n: nat :| 0 < n <= count && n <= |file|;
      data, file := file[..n], file[n..];
    }

    /** Doubles the allocation; the bytes keep their offsets. */
    method Grow()
      requires Valid() && !eof
      modifies this`buffer, this`bufread
      ensures bufread == 2 * old(bufread) && buffer.Length == bufread + 1 && fresh(buffer)
      ensures forall k :: 0 <= k <= old(bufread) ==> buffer[k] == old(buffer[k])
    {
      var b := new char[2 * bufread + 1];
      forall k | 0 <= k < buffer.Length {
        b[k] := buffer[k];
      }
      buffer, bufread := b, 2 * bufread;
    }

    /** Slides the `n` bytes at `startOfLine` down to the start of the buffer. */
    method MoveDown(n: nat)
      requires startOfLine + n <= buffer.Length
      modifies buffer
      ensures buffer[..n] == old(buffer[startOfLine..startOfLine + n])
    {
      var k := 0;
      while k < n
        invariant k <= n
        invariant forall m :: 0 <= m < k ==> buffer[m] == old(buffer[startOfLine + m])
        invariant forall m :: startOfLine + k <= m < startOfLine + n ==> buffer[m] == old(buffer[m])
      {
        buffer[k] := buffer[startOfLine + k];
        k := k + 1;
      }
    }

    /** Bytes that can be read behind `n` kept ones: whole blocks only. */
    function Space(n: nat): (r: nat)
      reads this
      requires n <= bufread
    {
      (bufread - n) / IO_SIZE * IO_SIZE
    }

    /**
     Makes room behind the unfinished line, growing the buffer at most once and never past `maxSize`.
     Fails, changing nothing, when it may not grow.
     */
    method MakeRoom() returns (count: nat)
      requires Valid() && !eof
      modifies this`buffer, this`bufread, this`end, this`startOfLine, buffer
      ensures count == 0 ==>
                && unchanged(this) && unchanged(old(buffer))
                && 2 * bufread > maxSize && end - startOfLine > bufread - IO_SIZE
      ensures count > 0 ==>
                && (buffer == old(buffer) || fresh(buffer))
                && (bufread == old(bufread) || (bufread == 2 * old(bufread) && bufread <= maxSize))
                && startOfLine == 0 && end == old(end - startOfLine) && buffer.Length == bufread + 1
                && buffer[..end] == old(buffer[startOfLine..end])
                && end + count <= bufread
    {
      var bufbytes := end - startOfLine;
      ghost var kept := buffer[startOfLine..end];
      count := Space(bufbytes);
      while count == 0
        invariant unchanged(this) || (count > 0 && fresh(buffer) && end == bufbytes)
        invariant unchanged(old(buffer)) && startOfLine == old(startOfLine)
        invariant bufread == old(bufread) || (bufread == 2 * old(bufread) && bufread <= maxSize)
        invariant buffer.Length == bufread + 1 && bufbytes <= bufread && count == Space(bufbytes)
        invariant startOfLine + bufbytes <= bufread && buffer[startOfLine..startOfLine + bufbytes] == kept
        decreases count == 0
      {
        if bufread * 2 > maxSize {
          return;
        }
        Grow();
        end := bufbytes;
        count := Space(bufbytes);
      }
      if startOfLine != 0 {
        MoveDown(bufbytes);
        startOfLine, end := 0, bufbytes;
      }
    }

    /** Puts `data` behind the buffered bytes, followed by the sentinel. */
    method Append(data: string)
      requires end + |data| < buffer.Length
      modifies buffer, this`end
      ensures end == old(end) + |data| && buffer[end] == NUL
      ensures buffer[..end] == old(buffer[..end]) + data
    {
      forall k | 0 <= k < |data| {
        buffer[end + k] := data[k];
      }
      end := end + |data|;
      buffer[end] := NUL;
      assert buffer[old(end)..end] == data;
    }

    /** Reads at most `count` bytes behind the kept ones; an unfinished last line gets the newline it lacks. */
    method ReadMore(count: nat) returns (n: nat)
      requires 0 < count && end + count < buffer.Length && !eof
      modifies this`file, this`eof, this`end, this`endOfLine, buffer
      ensures endOfLine == old(end) && end == endOfLine + n && n <= count && buffer[end] == NUL
      ensures buffer[..endOfLine] == old(buffer[..end])
      ensures eof <==> old(file) == ""
      ensures !eof ==> n > 0 && buffer[endOfLine..end] + file == old(file)
      ensures eof ==> file == "" && n == if endOfLine > 0 && old(buffer[end - 1]) != '\n' then 1 else 0
      ensures eof && n > 0 ==> endOfLine > 0 && buffer[endOfLine..end] == "\n"
      ensures eof && n == 0 && end > 0 ==> buffer[end - 1] == '\n'
    {
      var data := Read(count);
      if data == "" {
        eof := true;
        if end != 0 && buffer[end - 1] != '\n' {
          data := "\n";
        }
      }
      endOfLine := end;
      n := |data|;
      Append(data);
      assert buffer[..endOfLine] == buffer[..end][..endOfLine];
      assert buffer[endOfLine..end] == buffer[..end][endOfLine..] == data;
    }

    /**
     `fill_buffer`. The unfinished line `buffer[startOfLine..end]` is kept at the front and new bytes follow
     it. Nothing new and no end of file means the size limit; at the end of the file an unfinished line gets
     the newline it lacks.
     */
    method FillBuffer() returns (n: nat)
      requires Valid()
      modifies this, buffer
      ensures Valid() && maxSize == old(maxSize)
      ensures bufread == old(bufread) || (bufread == 2 * old(bufread) && bufread <= maxSize)
      ensures buffer == old(buffer) || fresh(buffer)
      ensures old(eof) || (n == 0 && !eof) ==> n == 0 && unchanged(this) && unchanged(old(buffer))
      ensures n == 0 && !eof ==> 2 * bufread > maxSize && end - startOfLine > bufread - IO_SIZE
      ensures n > 0 || (eof && !old(eof)) ==>
                && startOfLine == 0 && endOfLine == old(end - startOfLine) && end == endOfLine + n
                && buffer[..endOfLine] == old(buffer[startOfLine..end])
      ensures n > 0 && !eof ==> buffer[endOfLine..end] + file == old(file)
      ensures n > 0 && eof ==> old(file) == "" && endOfLine > 0 && buffer[endOfLine..end] == "\n"
      ensures n == 0 && eof && !old(eof) ==> old(file) == "" && (end > 0 ==> buffer[end - 1] == '\n')
    {
      if eof {
        return 0;
      }
      ghost var kept := buffer[startOfLine..end];
      var count := MakeRoom();
      if count == 0 {
        return 0;
      }
      assert buffer[..end] == kept;
      n := ReadMore(count);
      assert buffer[..endOfLine] == kept;
    }

    ghost predicate NoNewline(lo: nat, hi: nat)
      reads this, buffer
      requires hi <= buffer.Length
    {
      forall k :: lo <= k < hi ==> buffer[k] != '\n'
    }

    /** First newline at or after `from`, or the end of the buffered bytes. */
    method Scan(from: nat) returns (pos: nat)
      requires Valid() && from <= end
      ensures from <= pos <= end && NoNewline(from, pos)
      ensures pos < end ==> buffer[pos] == '\n'
    {
      pos := from;
      while buffer[pos] != '\n' && pos != end
        invariant from <= pos <= end && NoNewline(from, pos)
        decreases end - pos
      {
        pos := pos + 1;
      }
    }

    /** The unfinished line and everything behind it are the text to hand out, or a newline longer at its end. */
    ghost predicate Holds(unread: string)
      reads this, buffer
      requires Valid()
    {
      var whole := buffer[startOfLine..end];
      || (whole + file == unread && (eof ==> startOfLine == endOfLine))
      || (eof && unread != "" && startOfLine < endOfLine == end - 1 && whole == unread + "\n")
    }

    /** The state after a line was found: what was handed out, where it lies, and why it was cut if it was. */
    ghost predicate GotLine(unread: string, outLength: nat)
      reads this, buffer
      requires Valid()
    {
      if truncated then
        && !eof && endOfLine == end && outLength == endOfLine - startOfLine
        && Hands(unread, Piece(buffer[startOfLine..endOfLine], true), Unread())
        && 2 * bufread > maxSize && outLength > bufread - IO_SIZE
      else
        && startOfLine < endOfLine && buffer[endOfLine - 1] == '\n'
        && outLength == endOfLine - startOfLine - (if eof then 1 else 0)
        && Hands(unread, Piece(buffer[startOfLine..endOfLine - 1], false), Unread())
    }

    /** The newline at `pos` ends the current line. */
    method EndLine(pos: nat, ghost unread: string) returns (outLength: nat)
      requires Valid() && Holds(unread) && endOfLine <= pos < end && NoNewline(startOfLine, pos) && buffer[pos] == '\n'
      modifies this`truncated, this`endOfLine
      ensures Valid() && GotLine(unread, outLength)
    {
      ghost var whole, line, rest := buffer[startOfLine..end], buffer[startOfLine..pos], buffer[pos + 1..end];
      assert whole == line + "\n" + rest;
      HandsWhole(unread, whole, file, line, rest);
      truncated, endOfLine := false, pos + 1;
      outLength := pos + 1 - (if eof then 1 else 0) - startOfLine;
    }

    /** The size limit cuts the current line at the end of the buffered bytes. */
    method CutLine(ghost unread: string) returns (outLength: nat)
      requires Valid() && Holds(unread) && !eof && NoNewline(startOfLine, end)
      requires 2 * bufread > maxSize && end - startOfLine > bufread - IO_SIZE
      modifies this`truncated, this`endOfLine
      ensures Valid() && GotLine(unread, outLength)
    {
      truncated, endOfLine, outLength := true, end, end - startOfLine;
      assert Unread() == file;
    }

    /** Another fill while the current line has no end yet; the text still to be handed out stays the same. */
    method Refill(ghost unread: string) returns (n: nat)
      requires Valid() && Holds(unread) && NoNewline(startOfLine, end)
      modifies this, buffer
      ensures Valid() && maxSize == old(maxSize) && (buffer == old(buffer) || fresh(buffer))
      ensures n > 0 ==> Holds(unread) && NoNewline(startOfLine, endOfLine)
      ensures n > 0 ==> |file| < old(|file|) || (|file| == old(|file|) && eof && !old(eof))
      ensures n == 0 && eof ==> unread == "" && Unread() == ""
      ensures n == 0 && !eof ==> Holds(unread) && NoNewline(startOfLine, end)
      ensures n == 0 && !eof ==> 2 * bufread > maxSize && end - startOfLine > bufread - IO_SIZE
    {
      ghost var line := buffer[startOfLine..end];
      assert forall k :: 0 <= k < |line| ==> line[k] != '\n';
      assert (unread + "\n")[|unread|] == '\n';
      n := FillBuffer();
      if n > 0 {
        assert forall k :: 0 <= k < endOfLine ==> buffer[k] == buffer[..endOfLine][k];
        assert buffer[..end] == line + buffer[endOfLine..end];
        assert !eof ==> line + buffer[endOfLine..end] + file == line + (buffer[endOfLine..end] + file);
      }
    }

    /** How the search for the end of the line ends. */
    ghost predicate Searched(unread: string, pos: nat)
      reads this, buffer
      requires Valid()
    {
      && endOfLine <= pos <= end
      && (pos < end ==> Holds(unread) && NoNewline(startOfLine, pos) && buffer[pos] == '\n')
      && (pos == end && eof ==> unread == "" && Unread() == "")
      && (pos == end && !eof ==>
            && Holds(unread) && NoNewline(startOfLine, end)
            && 2 * bufread > maxSize && end - startOfLine > bufread - IO_SIZE)
    }

    method FindLineEnd(ghost unread: string) returns (pos: nat)
      requires Valid() && Holds(unread) && startOfLine == endOfLine
      modifies this, buffer
      ensures Valid() && maxSize == old(maxSize) && (buffer == old(buffer) || fresh(buffer))
      ensures Searched(unread, pos)
    {
      while true
        invariant Valid() && Holds(unread) && NoNewline(startOfLine, endOfLine)
        invariant maxSize == old(maxSize) && (buffer == old(buffer) || fresh(buffer))
        decreases |file|, !eof
      {
        pos := Scan(endOfLine);
        if pos < end {
          return;
        }
        var n := Refill(unread);
        if n == 0 {
          return end;
        }
      }
    }

    /** `intern_read_line`: the next line is `buffer[startOfLine..endOfLine]`, with its newline unless cut. */
    method InternReadLine() returns (found: bool, outLength: nat)
      requires Valid()
      modifies this, buffer
      ensures Valid() && maxSize == old(maxSize) && (buffer == old(buffer) || fresh(buffer))
      ensures !found ==> old(Unread()) == "" && Unread() == ""
      ensures found ==> GotLine(old(Unread()), outLength)
    {
      ghost var unread := Unread();
      startOfLine, found, outLength := endOfLine, true, 0;
      var pos := FindLineEnd(unread);
      if pos < end {
        outLength := EndLine(pos, unread);
      } else if eof {
        found := false;
      } else {
        outLength := CutLine(unread);
      }
    }

    /** The line just found, without its newline. */
    ghost function RawLine(): string
      reads this, buffer
      requires Valid() && (truncated || startOfLine < endOfLine)
    {
      if truncated then buffer[startOfLine..endOfLine] else buffer[startOfLine..endOfLine - 1]
    }

    /** Length of the line without its newline and, in text mode, without a carriage return before it. */
    method TrimEnd(outLength: nat, binaryMode: bool) returns (n: nat)
      requires Valid() && (truncated || (startOfLine < endOfLine && buffer[endOfLine - 1] == '\n'))
      requires NoNewline(startOfLine, startOfLine + |RawLine()|)
      requires outLength == |RawLine()| + (if truncated || eof then 0 else 1)
      ensures startOfLine + n <= endOfLine && (n < endOfLine - startOfLine || truncated)
      ensures buffer[startOfLine..startOfLine + n]
           == (if binaryMode || eof || truncated then RawLine() else DropCR(RawLine()))
    {
      n := outLength;
      if n != 0 && buffer[startOfLine + n - 1] == '\n' {
        n := n - 1;
        if n != 0 && !binaryMode && buffer[startOfLine + n - 1] == '\r' {
          n := n - 1;
        }
      }
    }

    /** What a caller needs to know of a line found. */
    ghost predicate Ready(unread: string, outLength: nat)
      reads this, buffer
      requires Valid()
    {
      && (if truncated then endOfLine == end else startOfLine < endOfLine && buffer[endOfLine - 1] == '\n')
      && outLength == |RawLine()| + (if truncated || eof then 0 else 1)
      && Hands(unread, Piece(RawLine(), truncated), Unread())
      && (truncated ==> TooLong(|RawLine()|, maxSize))
    }

    lemma LineIsReady(unread: string, outLength: nat)
      requires Valid() && GotLine(unread, outLength)
      ensures Ready(unread, outLength)
    {
    }

    lemma RawHasNoNewline(unread: string, outLength: nat)
      requires Valid() && Ready(unread, outLength)
      ensures NoNewline(startOfLine, startOfLine + |RawLine()|)
    {
      var raw := RawLine();
      assert forall k :: startOfLine <= k < startOfLine + |raw| ==> buffer[k] == raw[k - startOfLine];
    }

    /**
     What a successful call leaves behind: `raw` was handed out of the unread text; the caller sees it less
     the carriage return before its newline in text mode, terminated, in a part of the buffer that was read.
     */
    ghost predicate Delivered(unread: string, piece: Piece, raw: string, binaryMode: bool)
      reads this, buffer
      requires Valid()
    {
      && Hands(unread, Piece(raw, piece.truncated), Unread())
      && piece.text == (if binaryMode || eof || piece.truncated then raw else DropCR(raw))
      && (piece.truncated ==> TooLong(|raw|, maxSize))
      && startOfLine + readLength <= end && buffer[startOfLine..startOfLine + readLength] == piece.text
      && buffer[startOfLine + readLength] == NUL
    }

    /** Terminates a line of length `n` in the buffer; nothing unread is touched. */
    method Terminate(n: nat)
      requires Valid() && startOfLine + n <= endOfLine && (n < endOfLine - startOfLine || endOfLine == end)
      modifies this`readLength, buffer
      ensures Valid() && Unread() == old(Unread()) && readLength == n && buffer[startOfLine + n] == NUL
      ensures buffer[startOfLine..startOfLine + n] == old(buffer[startOfLine..startOfLine + n])
    {
      readLength := n;
      buffer[startOfLine + n] := NUL;
      assert buffer[endOfLine..end] == old(buffer[endOfLine..end]);
    }

    /** Trims and terminates the line in the buffer. */
    method Trim(outLength: nat, binaryMode: bool) returns (text: string)
      requires Valid() && (if truncated then endOfLine == end else startOfLine < endOfLine && buffer[endOfLine - 1] == '\n')
      requires NoNewline(startOfLine, startOfLine + |RawLine()|)
      requires outLength == |RawLine()| + (if truncated || eof then 0 else 1)
      modifies this`readLength, buffer
      ensures Valid() && Unread() == old(Unread())
      ensures text == old(if binaryMode || eof || truncated then RawLine() else DropCR(RawLine()))
      ensures startOfLine + readLength <= end && buffer[startOfLine..startOfLine + readLength] == text
      ensures buffer[startOfLine + readLength] == NUL
    {
      var n := TrimEnd(outLength, binaryMode);
      text := buffer[startOfLine..startOfLine + n];
      Terminate(n);
    }

    /** Hands out the line found. */
    method Deliver(outLength: nat, binaryMode: bool, ghost unread: string) returns (piece: Piece, ghost raw: string)
      requires Valid() && Ready(unread, outLength)
      modifies this`readLength, buffer
      ensures Valid() && Delivered(unread, piece, raw, binaryMode)
    {
      RawHasNoNewline(unread, outLength);
      raw := RawLine();
      ghost var rest := Unread();
      assert Hands(unread, Piece(raw, truncated), rest);
      var text := Trim(outLength, binaryMode);
      piece := Piece(text, truncated);
    }

    /** `batch_readline`: a line as long as any text is unread, and nothing only at the end. */
    method BatchReadline(binaryMode: bool) returns (found: bool, piece: Piece, ghost raw: string)
      requires Valid()
      modifies this, buffer
      ensures Valid() && maxSize == old(maxSize) && (buffer == old(buffer) || fresh(buffer))
      ensures found <==> old(Unread()) != ""
      ensures if found then Delivered(old(Unread()), piece, raw, binaryMode) else Unread() == ""
    {
      ghost var unread := Unread();
      var outLength;
      found, outLength := InternReadLine();
      piece, raw := Piece("", false), "";
      if found {
        LineIsReady(unread, outLength);
        piece, raw := Deliver(outLength, binaryMode, unread);
      }
    }

    /** `batch_readline_command` on a fresh reader. */
    constructor FromString(str: string)
      ensures Valid() && fresh(buffer) && eof && startOfLine == endOfLine == 0 && Unread() == str + "\n"
    {
      var b := new char[|str| + 2](k requires 0 <= k < |str| + 2 =>
        if k < |str| then str[k] else if k == |str| then '\n' else NUL);
      file, buffer, end, startOfLine, endOfLine := "", b, |str| + 1, 0, 0;
      bufread, eof, maxSize, truncated, readLength := 0, true, 1, false, 0;
      new;
      assert buffer[..end] == str + "\n";
    }

    /** `batch_readline_command` on a reader that holds text: the new text follows after a blank. */
    method AddString(str: string)
      requires Valid()
      modifies this
      ensures Valid() && fresh(buffer) && eof && startOfLine == endOfLine == 0
      ensures Unread() == (if old(end) == 0 then "" else old(buffer[..end - 1]) + " ") + str + "\n"
    {
      var text := (if end == 0 then "" else buffer[..end - 1] + " ") + str + "\n";
      var b := new char[|text| + 1](k requires 0 <= k <= |text| => if k < |text| then text[k] else NUL);
      file, buffer, end, startOfLine, endOfLine, eof, maxSize := "", b, |text|, 0, 0, true, 1;
      assert buffer[..end] == text;
    }

    /** Reads to the end in binary mode. */
    method ReadAll() returns (pieces: seq<Piece>)
      requires Valid()
      modifies this, buffer
      ensures ReadsTo(old(Unread()), pieces, "")
      ensures CutsAreLong(pieces, old(maxSize))
    {
      ghost var unread := Unread();
      pieces := [];
      var found, piece;
      ghost var raw;
      while true
        invariant Valid() && maxSize == old(maxSize) && (buffer == old(buffer) || fresh(buffer))
        invariant ReadsTo(unread, pieces, Unread())
        invariant CutsAreLong(pieces, maxSize)
        decreases |Unread()|
      {
        ghost var mid := Unread();
        found, piece, raw := BatchReadline(true);
        if !found {
          return;
        }
        assert piece == Piece(raw, piece.truncated);
        ReadsOneMore(unread, pieces, mid, piece, Unread());
        CutsOneMore(pieces, piece, maxSize);
        pieces := pieces + [piece];
      }
    }
  }

  // ---------------------------------------------------------------------------------------------
  // Nothing is lost and nothing is added
  // ---------------------------------------------------------------------------------------------

  lemma {:induction false} JoinSoFar(u: string, pieces: seq<Piece>, rest: string)
    requires ReadsTo(u, pieces, rest)
    ensures || Join(pieces) + rest == u
            || (&& rest == "" && pieces != [] && !pieces[|pieces| - 1].truncated
                && u != "" && u[|u| - 1] != '\n' && Join(pieces) == u + "\n")
    decreases |pieces|
  {
    if pieces != [] {
      var before, last := pieces[..|pieces| - 1], pieces[|pieces| - 1];
      var mid :| ReadsTo(u, before, mid) && Hands(mid, last, rest);
      JoinSoFar(u, before, mid);
      assert Join(before) + mid == u;
      if last.truncated {
        assert Join(before) + (last.text + rest) == Join(before) + last.text + "" + rest;
      } else if mid == last.text + "\n" + rest {
        assert Join(before) + (last.text + "\n" + rest) == Join(before) + last.text + "\n" + rest;
      } else {
        assert u[|u| - 1] == mid[|mid| - 1];
      }
    }
  }

  /**
   Whatever the file and however its reads are cut short: the lines put back together are the file, with one
   newline more exactly when the file has a last line without one that was not cut.
   */
  lemma ReadsBack(u: string, pieces: seq<Piece>)
    requires ReadsTo(u, pieces, "")
    ensures u != "" ==> pieces != []
    ensures Join(pieces) == u + (if u == "" || u[|u| - 1] == '\n' || pieces[|pieces| - 1].truncated then "" else "\n")
  {
    JoinSoFar(u, pieces, "");
    assert Join(pieces) + "" == Join(pieces);
    if u != "" && u[|u| - 1] != '\n' && !pieces[|pieces| - 1].truncated {
      assert Join(pieces)[|Join(pieces)| - 1] == '\n';
    }
  }

  lemma SplitOne(u: string, piece: Piece, rest: string)
    requires Hands(u, piece, rest) && !piece.truncated
    ensures SplitLines(u) == [piece.text] + SplitLines(rest)
  {
    LineLengthIs(u, |piece.text|);
    assert u[..|piece.text|] == piece.text;
    assert |piece.text| < |u| ==> u[|piece.text| + 1..] == rest;
  }

  ghost predicate NoneCut(pieces: seq<Piece>) {
    forall k :: 0 <= k < |pieces| ==> !pieces[k].truncated
  }

  ghost predicate LinesAreShort(lines: seq<string>, maxSize: nat) {
    forall k :: 0 <= k < |lines| ==> !TooLong(|lines[k]|, maxSize)
  }

  lemma TextsSnoc(pieces: seq<Piece>, lines: seq<string>)
    requires pieces != []
    ensures var before, last := pieces[..|pieces| - 1], pieces[|pieces| - 1];
      Texts(before) + ([last.text] + lines) == Texts(pieces) + lines
  {
  }

  /** As long as nothing was cut, the lines so far are the first lines of the split. */
  lemma {:induction false} SplitSoFar(u: string, pieces: seq<Piece>, rest: string)
    requires ReadsTo(u, pieces, rest) && NoneCut(pieces)
    ensures SplitLines(u) == Texts(pieces) + SplitLines(rest)
    decreases |pieces|
  {
    var lines := SplitLines(rest);
    if pieces == [] {
      assert lines == Texts(pieces) + lines;
    } else {
      var before, last := pieces[..|pieces| - 1], pieces[|pieces| - 1];
      var mid :| ReadsTo(u, before, mid) && Hands(mid, last, rest);
      SplitSoFar(u, before, mid);
      SplitOne(mid, last, rest);
      TextsSnoc(pieces, lines);
    }
  }

  /** A line handed out is no longer than the line it starts. */
  lemma HandsWithinLine(u: string, piece: Piece, rest: string)
    requires Hands(u, piece, rest)
    ensures SplitLines(u) != [] && |piece.text| <= |SplitLines(u)[0]|
  {
    assert u[..|piece.text|] == piece.text;
    LineLengthAtLeast(u, |piece.text|);
  }

  lemma FirstCut(lines: seq<string>, first: seq<string>, more: seq<string>, piece: Piece, maxSize: nat)
    requires lines == first + more && more != [] && |piece.text| <= |more[0]|
    requires LinesAreShort(lines, maxSize) && (piece.truncated ==> TooLong(|piece.text|, maxSize))
    ensures !piece.truncated
  {
    assert lines[|first|] == more[0];
  }

  lemma LastNotCut(u: string, before: seq<Piece>, mid: string, last: Piece, rest: string, maxSize: nat)
    requires ReadsTo(u, before, mid) && NoneCut(before) && Hands(mid, last, rest)
    requires LinesAreShort(SplitLines(u), maxSize) && (last.truncated ==> TooLong(|last.text|, maxSize))
    ensures !last.truncated
  {
    SplitSoFar(u, before, mid);
    HandsWithinLine(mid, last, rest);
    FirstCut(SplitLines(u), Texts(before), SplitLines(mid), last, maxSize);
  }

  lemma CutsBefore(pieces: seq<Piece>, maxSize: nat)
    requires pieces != [] && CutsAreLong(pieces, maxSize)
    ensures CutsAreLong(pieces[..|pieces| - 1], maxSize)
  {
  }

  lemma {:induction false} NothingCut(u: string, pieces: seq<Piece>, rest: string, maxSize: nat)
    requires ReadsTo(u, pieces, rest) && CutsAreLong(pieces, maxSize)
    requires LinesAreShort(SplitLines(u), maxSize)
    ensures NoneCut(pieces)
    decreases |pieces|
  {
    if pieces != [] {
      var before, last := pieces[..|pieces| - 1], pieces[|pieces| - 1];
      var mid :| ReadsTo(u, before, mid) && Hands(mid, last, rest);
      CutsBefore(pieces, maxSize);
      NothingCut(u, before, mid, maxSize);
      LastNotCut(u, before, mid, last, rest, maxSize);
      assert forall k :: 0 <= k < |before| ==> pieces[k] == before[k];
    }
  }

  /** When no line is long enough to hit the size limit, the lines are exactly the split on newline. */
  lemma LinesAreSplit(u: string, pieces: seq<Piece>, maxSize: nat)
    requires ReadsTo(u, pieces, "") && CutsAreLong(pieces, maxSize)
    requires LinesAreShort(SplitLines(u), maxSize)
    ensures NoneCut(pieces) && Texts(pieces) == SplitLines(u)
  {
    NothingCut(u, pieces, "", maxSize);
    SplitSoFar(u, pieces, "");
  }
}
