/**
 escape_for_copy of "libpq copy.md", the TEXT rows it feeds, and the reading back that the note's
 table describes: rows end in a newline, columns are separated by tabs, `\N` is NULL, and a
 backslash escapes.  A C string is the part of a char buffer before its first NUL.
 */
module CopyText {
  import opened Wrappers

  predicate Special(c: char) { c == '\\' || c == '\t' || c == '\n' }

  /** The bytes written for one source byte. */
  function EscapeOne(c: char): (e: string)
    ensures |e| == if Special(c) then 2 else 1
  {
    if c == '\\' then "\\\\" else if c == '\t' then "\\t" else if c == '\n' then "\\n" else [c]
  }

  function Escape(s: string): string {
    if s == "" then "" else EscapeOne(s[0]) + Escape(s[1..])
  }

  /** Undoing the escapes; a backslash before any other byte stands for that byte. */
  function Unescape(s: string): string {
    if s == "" then ""
    else if s[0] == '\\' && |s| >= 2 then
      [if s[1] == 't' then '\t' else if s[1] == 'n' then '\n' else s[1]] + Unescape(s[2..])
    else [s[0]] + Unescape(s[1..])
  }

  lemma {:induction false} UnescapeUndoesEscape(s: string)
    ensures Unescape(Escape(s)) == s
  {
    if s != "" {
      UnescapeUndoesEscape(s[1..]);
      var e, rest := EscapeOne(s[0]), Escape(s[1..]);
      assert (e + rest)[|e|..] == rest;
      assert s == [s[0]] + s[1..];
    }
  }

  /** The length of the longest prefix whose escape, with its NUL, fits in `size` bytes after j. */
  function Fits(s: string, j: nat, size: nat): (n: nat)
    requires j < size
    ensures n <= |s| && j + |Escape(s[..n])| < size
    ensures n < |s| ==> j + |Escape(s[..n])| + |EscapeOne(s[n])| >= size
    decreases |s|
  {
    if s == "" || j + |EscapeOne(s[0])| >= size then
      assert Escape(s[..0]) == "";
      0
    else
      var k := Fits(s[1..], j + |EscapeOne(s[0])|, size);
      assert s[..k + 1][1..] == s[1..][..k];
      k + 1
  }

  lemma EscapeCons(c: char, rest: string)
    ensures Escape([c] + rest) == EscapeOne(c) + Escape(rest)
  {
    hide EscapeOne;
    assert ([c] + rest)[1..] == rest;
  }

  lemma Assoc(a: string, b: string, c: string)
    ensures (a + b) + c == a + (b + c)
  {
  }

  /** Every character keeps its place; a backslash, a tab and a newline become two characters each. */
  lemma EscapeByCharacter(s: string, i: nat)
    requires i < |s|
    ensures s[i] == '\\' ==> Escape(s) == Escape(s[..i]) + "\\\\" + Escape(s[i + 1..])
    ensures s[i] == '\t' ==> Escape(s) == Escape(s[..i]) + "\\t" + Escape(s[i + 1..])
    ensures s[i] == '\n' ==> Escape(s) == Escape(s[..i]) + "\\n" + Escape(s[i + 1..])
    ensures s[i] != '\\' && s[i] != '\t' && s[i] != '\n' ==> Escape(s) == Escape(s[..i]) + [s[i]] + Escape(s[i + 1..])
  {
    hide Escape;
    EscapeUpTo(s, i);
    EscapeConcat(s[..i + 1], s[i + 1..]);
    assert s == s[..i + 1] + s[i + 1..];
  }

  lemma {:induction false} EscapeConcat(a: string, b: string)
    ensures Escape(a + b) == Escape(a) + Escape(b)
  {
    if a == "" {
      assert a + b == b;
    } else {
      hide EscapeOne;
      EscapeConcat(a[1..], b);
      EscapeCons(a[0], a[1..]);
      EscapeCons(a[0], a[1..] + b);
      assert a == [a[0]] + a[1..] && a + b == [a[0]] + (a[1..] + b);
      hide Escape;
      Assoc(EscapeOne(a[0]), Escape(a[1..]), Escape(b));
    }
  }

  lemma {:induction false} EscapeLength(s: string)
    ensures |s| <= |Escape(s)| <= 2 * |s|
  {
    if s != "" {
      EscapeLength(s[1..]);
    }
  }

  /** A buffer of twice the length plus one always takes the whole string. */
  lemma RoomForAll(s: string, size: nat)
    requires 2 * |s| + 1 <= size
    ensures Fits(s, 0, size) == |s|
  {
    var n := Fits(s, 0, size);
    EscapeLength(s[..n]);
  }

  /** The C string at the start of a buffer. */
  function CString(src: seq<char>): (s: string)
    ensures |s| <= |src| && s == src[..|s|]
    ensures forall k :: 0 <= k < |s| ==> s[k] != '\0'
    ensures |s| < |src| ==> src[|s|] == '\0'
  {
    if src == [] || src[0] == '\0' then [] else [src[0]] + CString(src[1..])
  }

  lemma FitsOne(s: string, j: nat, size: nat)
    requires s != "" && j + |EscapeOne(s[0])| < size
    ensures Fits(s, j, size) == 1 + Fits(s[1..], j + |EscapeOne(s[0])|, size)
  {
    hide Escape, EscapeOne;
  }

  /** The loop's view of `Fits`: what still fits from position i on. */
  lemma {:induction false} FitsFrom(s: string, i: nat, size: nat)
    requires i <= |s| && |Escape(s[..i])| < size
    ensures Fits(s, 0, size) == i + Fits(s[i..], |Escape(s[..i])|, size)
  {
    if i == 0 {
      FitsFromStart(s, size);
    } else {
      hide Escape, EscapeOne, Fits;
      var rest := s[i - 1..];
      EscapeUpTo(s, i - 1);
      FitsFrom(s, i - 1, size);
      assert rest[0] == s[i - 1] && rest[1..] == s[i..];
      FitsOne(rest, |Escape(s[..i - 1])|, size);
    }
  }

  lemma FitsFromStart(s: string, size: nat)
    requires 0 < size
    ensures |Escape(s[..0])| == 0 && Fits(s[0..], 0, size) == Fits(s, 0, size)
  {
    hide Fits;
    assert s[0..] == s && s[..0] == "";
  }

  lemma EscapeUpTo(s: string, i: nat)
    requires i < |s|
    ensures Escape(s[..i + 1]) == Escape(s[..i]) + EscapeOne(s[i])
  {
    EscapeConcat(s[..i], [s[i]]);
    assert s[..i + 1] == s[..i] + [s[i]];
    assert Escape([s[i]]) == EscapeOne(s[i]) + Escape("");
  }

  /** No prefix longer than what fits would fit. */
  lemma FitsIsLongest(s: string, size: nat, n: nat)
    requires 0 < size && n <= |s| && |Escape(s[..n])| < size
    ensures n <= Fits(s, 0, size)
  {
    FitsFrom(s, n, size);
  }

  /** The assignments of one turn of the loop. */
  method Emit(c: char, dst: array<char>, j: nat) returns (j': nat)
    requires j + |EscapeOne(c)| <= dst.Length
    modifies dst
    ensures j' == j + |EscapeOne(c)|
    ensures dst[..j'] == old(dst[..j]) + EscapeOne(c) && dst[j'..] == old(dst[j + |EscapeOne(c)|..])
  {
    if c == '\\' { dst[j], dst[j + 1] := '\\', '\\'; j' := j + 2; }
    else if c == '\t' { dst[j], dst[j + 1] := '\\', 't'; j' := j + 2; }
    else if c == '\n' { dst[j], dst[j + 1] := '\\', 'n'; j' := j + 2; }
    else { dst[j] := c; j' := j + 1; }
  }

  /** One more byte fits exactly when the loop's test lets it pass. */
  lemma OneMoreFits(s: string, i: nat, size: nat)
    requires i < |s| && |Escape(s[..i])| < size && i <= Fits(s, 0, size)
    ensures Escape(s[..i + 1]) == Escape(s[..i]) + EscapeOne(s[i])
    ensures i < Fits(s, 0, size) <==> |Escape(s[..i])| + |EscapeOne(s[i])| < size
  {
    EscapeUpTo(s, i);
    if |Escape(s[..i + 1])| < size {
      FitsIsLongest(s, size, i + 1);
    } else {
      EscapeGrows(s, i + 1, Fits(s, 0, size));
    }
  }

  lemma EscapeGrows(s: string, i: nat, k: nat)
    requires i <= |s| && k <= |s|
    ensures i <= k ==> |Escape(s[..i])| <= |Escape(s[..k])|
  {
    if i <= k {
      EscapeConcat(s[..i], s[i..k]);
      assert s[..k] == s[..i] + s[i..k];
    }
  }

  lemma {:induction false} EscapeHasNoNul(s: string)
    requires forall k :: 0 <= k < |s| ==> s[k] != '\0'
    ensures forall k :: 0 <= k < |Escape(s)| ==> Escape(s)[k] != '\0'
  {
    if s != "" {
      EscapeHasNoNul(s[1..]);
    }
  }

  lemma {:induction false} CStringEnds(buf: seq<char>, n: nat)
    requires n < |buf| && buf[n] == '\0' && forall k :: 0 <= k < n ==> buf[k] != '\0'
    ensures CString(buf) == buf[..n]
  {
    if n > 0 {
      CStringEnds(buf[1..], n - 1);
      assert [buf[0]] + buf[1..][..n - 1] == buf[..n];
    }
  }

  /** Read as a C string and unescaped, the buffer gives back as much of the source as fitted. */
  lemma BufferReadsBack(s: string, buf: seq<char>, size: nat)
    requires 0 < size && forall k :: 0 <= k < |s| ==> s[k] != '\0'
    requires var e := Escape(s[..Fits(s, 0, size)]);
             |e| < |buf| && buf[..|e|] == e && buf[|e|] == '\0'
    ensures CString(buf) == Escape(s[..Fits(s, 0, size)])
    ensures Unescape(CString(buf)) == s[..Fits(s, 0, size)] <= s
    ensures 2 * |s| + 1 <= size ==> Unescape(CString(buf)) == s
  {
    hide Escape, Unescape, Fits, CString;
    var n := Fits(s, 0, size);
    var e := Escape(s[..n]);
    EscapeHasNoNul(s[..n]);
    assert forall k :: 0 <= k < |e| ==> buf[k] == buf[..|e|][k];
    CStringEnds(buf, |e|);
    UnescapeUndoesEscape(s[..n]);
    if 2 * |s| + 1 <= size { RoomForAll(s, size); }
  }

  /** The bytes escape_for_copy uses: a dst_size of 0 is treated as 1. */
  function Room(dstSize: nat): (size: nat)
    ensures 1 <= size
  {
    if dstSize == 0 then 1 else dstSize
  }

  /**
   escape_for_copy: the escape of the longest prefix that fits, never half an escape, then NUL.  All
   is written within dst_size if and only if dst_size is not 0; if it is, dst[0] is written all the same.
   */
  method EscapeForCopy(src: seq<char>, dst: array<char>, dstSize: nat)
    requires '\0' in src && Room(dstSize) <= dst.Length
    modifies dst
    ensures var s := CString(src);
            var e := Escape(s[..Fits(s, 0, Room(dstSize))]);
            && |e| < Room(dstSize) && (|e| < dstSize <==> dstSize != 0)
            && dst[..|e|] == e && dst[|e|] == '\0'
            && dst[|e| + 1..] == old(dst[|e| + 1..])
    ensures CString(dst[..]) == Escape(CString(src)[..Fits(CString(src), 0, Room(dstSize))])
    ensures Unescape(CString(dst[..])) <= CString(src)
    ensures 2 * |CString(src)| + 1 <= dstSize ==> Unescape(CString(dst[..])) == CString(src)
  {
    hide Escape, EscapeOne, Fits, Unescape;
    ghost var s := CString(src);
    ghost var n := Fits(s, 0, Room(dstSize));
    ghost var before := dst[..];
    var i, j := 0, 0;
    EscapeNothing(s);
    while src[i] != '\0'
      invariant i <= n <= |s| < |src| && j == |Escape(s[..i])| < Room(dstSize)
      invariant dst[..j] == Escape(s[..i]) && dst[j..] == before[j..]
      decreases |s| - i
    {
      OneMoreFits(s, i, Room(dstSize));
      EscapeOneLength(src[i]);
      if src[i] == '\\' || src[i] == '\t' || src[i] == '\n' {
        if j + 2 >= dstSize { break; }
      } else {
        if j + 1 >= dstSize { break; }
      }
      ghost var j0 := j;
      j := Emit(src[i], dst, j);
      assert before[j0..][j - j0..] == before[j..];
      i := i + 1;
    }
    assert i == n;
    dst[j] := '\0';
    assert dst[j + 1..] == before[j..][1..];
    BufferReadsBack(s, dst[..], Room(dstSize));
  }

  lemma EscapeNothing(s: string)
    ensures Escape(s[..0]) == ""
  {
  }

  lemma EscapeOneLength(c: char)
    ensures |EscapeOne(c)| == if Special(c) then 2 else 1
  {
  }

  // ---------------------------------------------------------------- rows

  type Field = Option<string>

  const NULL_MARK: string := "\\N"
  const END_MARK: string := "\\."

  function WriteField(f: Field): string {
    match f case None => NULL_MARK case Some(s) => Escape(s)
  }

  function ReadField(s: string): Field {
    if s == NULL_MARK then None else Some(Unescape(s))
  }

  /** Escaped text holds no raw separator, and never reads as a marker. */
  lemma {:induction false} EscapeIsClean(s: string)
    ensures forall k :: 0 <= k < |Escape(s)| ==> Escape(s)[k] != '\t' && Escape(s)[k] != '\n'
    ensures Escape(s) != "\\N" && Escape(s) != "\\."
    ensures |Escape(s)| >= 2 && Escape(s)[0] == '\\' ==>
              Escape(s)[1] == '\\' || Escape(s)[1] == 't' || Escape(s)[1] == 'n'
  {
    assert NULL_MARK[0] == '\\' && NULL_MARK[1] == 'N' && END_MARK[0] == '\\' && END_MARK[1] == '.';
    if s != "" {
      EscapeIsClean(s[1..]);
      var e, rest := EscapeOne(s[0]), Escape(s[1..]);
      assert forall k :: 0 <= k < |e| ==> (e + rest)[k] == e[k];
      assert forall k :: |e| <= k < |e + rest| ==> (e + rest)[k] == rest[k - |e|];
      assert (e + rest)[0] == e[0] && (|e| == 2 ==> (e + rest)[1] == e[1]);
    }
  }

  lemma FieldReadsBack(f: Field)
    ensures ReadField(WriteField(f)) == f
    ensures forall k :: 0 <= k < |WriteField(f)| ==> WriteField(f)[k] != '\t' && WriteField(f)[k] != '\n'
    ensures WriteField(f) != END_MARK
  {
    if f.Some? {
      EscapeIsClean(f.value);
      UnescapeUndoesEscape(f.value);
    }
  }

  function Join(parts: seq<string>, sep: char): string
    requires parts != []
  {
    if |parts| == 1 then parts[0] else parts[0] + [sep] + Join(parts[1..], sep)
  }

  /** Splitting at every raw separator. */
  function Split(s: string, sep: char): (parts: seq<string>)
    ensures parts != []
  {
    if s == "" then [""]
    else
      var rest := Split(s[1..], sep);
      if s[0] == sep then [""] + rest else [[s[0]] + rest[0]] + rest[1..]
  }

  ghost predicate Without(s: string, c: char) {
    forall k :: 0 <= k < |s| ==> s[k] != c
  }

  lemma {:induction false} SplitNothing(s: string, sep: char)
    requires Without(s, sep)
    ensures Split(s, sep) == [s]
  {
    if s != "" {
      assert Without(s[1..], sep);
      SplitNothing(s[1..], sep);
      assert [s[0]] + s[1..] == s;
    }
  }

  lemma {:induction false} SplitFirst(a: string, sep: char, b: string)
    requires Without(a, sep)
    ensures Split(a + [sep] + b, sep) == [a] + Split(b, sep)
  {
    if a == "" {
      assert a + [sep] + b == [sep] + b;
      assert ([sep] + b)[1..] == b;
    } else {
      assert Without(a[1..], sep);
      SplitFirst(a[1..], sep, b);
      assert (a + [sep] + b)[1..] == a[1..] + [sep] + b;
      assert [a[0]] + a[1..] == a;
    }
  }

  lemma {:induction false} SplitUndoesJoin(parts: seq<string>, sep: char)
    requires parts != [] && forall k :: 0 <= k < |parts| ==> Without(parts[k], sep)
    ensures Split(Join(parts, sep), sep) == parts
  {
    if |parts| == 1 {
      SplitNothing(parts[0], sep);
    } else {
      SplitUndoesJoin(parts[1..], sep);
      SplitFirst(parts[0], sep, Join(parts[1..], sep));
    }
  }

  lemma {:induction false} JoinWithout(parts: seq<string>, sep: char, c: char)
    requires parts != [] && sep != c && forall k :: 0 <= k < |parts| ==> Without(parts[k], c)
    ensures Without(Join(parts, sep), c)
  {
    if |parts| > 1 {
      JoinWithout(parts[1..], sep, c);
    }
  }

  function WriteFields(row: seq<Field>): seq<string> {
    seq(|row|, k requires 0 <= k < |row| => WriteField(row[k]))
  }

  function ReadFields(parts: seq<string>): seq<Field> {
    seq(|parts|, k requires 0 <= k < |parts| => ReadField(parts[k]))
  }

  /** One row without its newline: the escaped columns, tab-separated. */
  function WriteRow(row: seq<Field>): string
    requires row != []
  {
    Join(WriteFields(row), '\t')
  }

  function ReadRow(line: string): seq<Field> { ReadFields(Split(line, '\t')) }

  /** A row reads back, fits on one line, and is not the end-of-copy marker. */
  lemma RowReadsBack(row: seq<Field>)
    requires row != []
    ensures ReadRow(WriteRow(row)) == row && Without(WriteRow(row), '\n') && WriteRow(row) != "\\."
  {
    var parts := WriteFields(row);
    forall k | 0 <= k < |row|
      ensures ReadField(parts[k]) == row[k] && parts[k] != END_MARK
      ensures Without(parts[k], '\t') && Without(parts[k], '\n')
    {
      FieldReadsBack(row[k]);
    }
    SplitUndoesJoin(parts, '\t');
    JoinWithout(parts, '\t', '\n');
    if |row| > 1 {
      assert WriteRow(row)[|parts[0]|] == '\t';
    }
  }

  /** In the text of a row, column k is the two characters `\N` if and only if the field is NULL. */
  lemma NullColumns(row: seq<Field>, k: nat)
    requires row != [] && k < |row|
    ensures |Split(WriteRow(row), '\t')| == |row|
    ensures Split(WriteRow(row), '\t')[k] == "\\N" <==> row[k].None?
    ensures row[k].Some? ==> Split(WriteRow(row), '\t')[k] == Escape(row[k].value)
  {
    hide Escape, Split, Join;
    RowSplits(row);
    if row[k].Some? { EscapeIsClean(row[k].value); }
  }

  lemma RowSplits(row: seq<Field>)
    requires row != []
    ensures Split(WriteRow(row), '\t') == WriteFields(row)
  {
    forall k | 0 <= k < |row| ensures Without(WriteFields(row)[k], '\t') {
      FieldReadsBack(row[k]);
    }
    SplitUndoesJoin(WriteFields(row), '\t');
  }

  predicate HasColumns(rows: seq<seq<Field>>) {
    forall k :: 0 <= k < |rows| ==> rows[k] != []
  }

  /** The data sent: every row followed by a newline. */
  function WriteRows(rows: seq<seq<Field>>): string
    requires HasColumns(rows)
  {
    if rows == [] then "" else WriteRow(rows[0]) + "\n" + WriteRows(rows[1..])
  }

  /** Lines up to the end-of-copy marker or the end of the data. */
  function ReadLines(lines: seq<string>): seq<seq<Field>> {
    if |lines| <= 1 || lines[0] == END_MARK then [] else [ReadRow(lines[0])] + ReadLines(lines[1..])
  }

  function ReadRows(data: string): seq<seq<Field>> { ReadLines(Split(data, '\n')) }

  /** The round trip of the TEXT format: any rows of any fields, NULLs included, come back as they were. */
  lemma {:induction false} RowsReadBack(rows: seq<seq<Field>>)
    requires HasColumns(rows)
    ensures ReadRows(WriteRows(rows)) == rows
  {
    if rows != [] {
      RowsReadBack(rows[1..]);
      RowReadsBack(rows[0]);
      SplitFirst(WriteRow(rows[0]), '\n', WriteRows(rows[1..]));
      var lines := Split(WriteRows(rows[1..]), '\n');
      assert ([WriteRow(rows[0])] + lines)[1..] == lines;
    }
  }

  /** The reader stops at a line of a backslash and a full stop, whatever comes after it. */
  lemma {:induction false} EndMarkerEnds(rows: seq<seq<Field>>, rest: string)
    requires HasColumns(rows)
    ensures ReadRows(WriteRows(rows) + "\\.\n" + rest) == rows
  {
    if rows == [] {
      assert "" + "\\.\n" + rest == "\\." + ['\n'] + rest;
      SplitFirst("\\.", '\n', rest);
    } else {
      EndMarkerEnds(rows[1..], rest);
      RowReadsBack(rows[0]);
      var row, more := WriteRow(rows[0]), WriteRows(rows[1..]) + "\\.\n" + rest;
      assert WriteRows(rows) + "\\.\n" + rest == row + ['\n'] + more;
      SplitFirst(row, '\n', more);
      var lines := Split(more, '\n');
      assert ([row] + lines)[1..] == lines;
    }
  }
}
