/**
 The text pstree prints with its ASCII character set: one line per process, indented by a
 head that records which ancestors still have sisters to come. Lines are not truncated here.
 */
module PstreeText {
  import opened ProcForest
  import opened SeqFacts

  // ----- numbers -------------------------------------------------------------------------

  function Digit(k: nat): (c: char)
    requires k < 10
    ensures '0' <= c <= '9' && DigitValue(c) == k
  {
    (48 + k) as char
  }

  function DigitValue(c: char): int {
    c as int - 48
  }

  /** The decimal digits of n, padded with zeros to at least `width`. */
  function Digits(n: nat, width: nat): (s: string)
    ensures |s| >= width
    ensures n > 0 ==> s != ""
    ensures forall k :: 0 <= k < |s| ==> '0' <= s[k] <= '9'
    decreases n + width
  {
    if n == 0 && width == 0 then ""
    else Digits(n / 10, if width == 0 then 0 else width - 1) + [Digit(n % 10)]
  }

  /** printf's "%0*ld". */
  function PaddedText(n: int, width: nat): (s: string)
    requires width > 0
    ensures s != "" && ' ' !in s
  {
    if n < 0 then "-" + Digits(-n, width - 1) else Digits(n, width)
  }

  /** printf's "%05ld". */
  function PidText(pid: int): (s: string)
    ensures s != "" && ' ' !in s
  {
    PaddedText(pid, 5)
  }

  function Value(s: string): int {
    if s == "" then 0 else 10 * Value(s[..|s| - 1]) + DigitValue(s[|s| - 1])
  }

  function ParsePid(s: string): int {
    if s != "" && s[0] == '-' then -Value(s[1..]) else Value(s)
  }

  lemma ValueSnoc(s: string, c: char)
    ensures Value(s + [c]) == 10 * Value(s) + DigitValue(c)
  {
    assert (s + [c])[..|s|] == s;
  }

  lemma {:induction false} ValueOfDigits(n: nat, width: nat)
    ensures Value(Digits(n, width)) == n
    decreases n + width
  {
    if n + width > 0 {
      var w := if width == 0 then 0 else width - 1;
      ValueOfDigits(n / 10, w);
      ValueSnoc(Digits(n / 10, w), Digit(n % 10));
    }
  }

  lemma ParseSigned(d: string)
    ensures ParsePid("-" + d) == -Value(d)
    ensures d != "" && '0' <= d[0] ==> ParsePid(d) == Value(d)
  {
    assert ("-" + d)[1..] == d;
  }

  /** A printed number can be read back. */
  lemma PaddedRoundTrip(n: int, width: nat)
    requires width > 0
    ensures ParsePid(PaddedText(n, width)) == n
  {
    var d := if n < 0 then Digits(-n, width - 1) else Digits(n, width);
    assert Value(d) == if n < 0 then -n else n by {
      if n < 0 {
        ValueOfDigits(-n, width - 1);
      } else {
        ValueOfDigits(n, width);
      }
    }
    ParseSigned(d);
  }

  // ----- bodies --------------------------------------------------------------------------

  /** What a line shows from the stem on; `branch` says that visible children exist. */
  function Body(branch: bool, leader: bool, pid: int, tail: string): (s: string)
    ensures s != "" && s[0] == '-'
  {
    (if branch then "-+" else "--") + (if leader then "=" else "-") + " " + PidText(pid) + " " + tail
  }

  function UpTo(s: string, stop: char): (r: string) {
    if s == "" || s[0] == stop then "" else [s[0]] + UpTo(s[1..], stop)
  }

  function PidOf(body: string): int {
    if |body| < 4 then 0 else ParsePid(UpTo(body[4..], ' '))
  }

  lemma {:induction false} UpToStops(w: string, stop: char, rest: string)
    requires stop !in w
    ensures UpTo(w + [stop] + rest, stop) == w
  {
    if w == "" {
      assert "" + [stop] + rest == [stop] + rest;
    } else {
      UpToStops(w[1..], stop, rest);
      assert (w + [stop] + rest)[1..] == w[1..] + [stop] + rest;
    }
  }

  lemma BodyShowsPid(branch: bool, leader: bool, pid: int, tail: string)
    ensures PidOf(Body(branch, leader, pid, tail)) == pid
  {
    var b := Body(branch, leader, pid, tail);
    assert b[4..] == PidText(pid) + [' '] + tail;
    UpToStops(PidText(pid), ' ', tail);
    PaddedRoundTrip(pid, 5);
  }

  lemma {:induction false} DigitsOfZero(width: nat)
    ensures |Digits(0, width)| == width
    decreases width
  {
    if width > 0 {
      DigitsOfZero(width - 1);
    }
  }

  /** A positive number has no zero in front that its width does not ask for. */
  lemma {:induction false} NoZeroInFront(n: nat, width: nat)
    requires n > 0
    ensures |Digits(n, width)| > width || width <= 1 ==> Digits(n, width)[0] != '0'
    decreases n
  {
    var w := if width == 0 then 0 else width - 1;
    if n / 10 > 0 {
      NoZeroInFront(n / 10, w);
      assert Digits(n, width)[0] == Digits(n / 10, w)[0];
    } else {
      DigitsOfZero(w);
    }
  }

  /** A number in a field of at least five characters, padded with zeros only as far as that asks for. */
  predicate FiveWide(field: string) {
    |field| >= 5 && (|field| > 5 ==> field[if field[0] == '-' then 1 else 0] != '0')
  }

  lemma PidIsFiveWide(pid: int)
    ensures FiveWide(PidText(pid)) && ' ' !in PidText(pid) && ParsePid(PidText(pid)) == pid
  {
    PaddedRoundTrip(pid, 5);
    if pid > 0 {
      NoZeroInFront(pid, 5);
    } else if pid < 0 {
      NoZeroInFront(-pid, 4);
    } else {
      DigitsOfZero(5);
    }
  }

  /** The mark of the number of threads: nothing for up to one, else the number in brackets. */
  predicate ThreadMark(mark: string, n: nat) {
    if n <= 1 then mark == ""
    else |mark| > 2 && mark[0] == '[' && mark[|mark| - 1] == ']' && mark[1] != '0' &&
         (forall k :: 0 < k < |mark| - 1 ==> '0' <= mark[k] <= '9') && Value(mark[1..|mark| - 1]) == n
  }

  lemma MarkIs(d: string, n: nat)
    requires n > 1 && d != "" && d[0] != '0' && Value(d) == n && forall k :: 0 <= k < |d| ==> '0' <= d[k] <= '9'
    ensures ThreadMark("[" + d + "]", n)
  {
    var mark := "[" + d + "]";
    assert mark[1..|mark| - 1] == d;
    assert mark[1] == d[0];
    assert forall k :: 0 < k < |mark| - 1 ==> mark[k] == d[k - 1];
  }

  lemma MarkOf(n: nat)
    requires n > 1
    ensures ThreadMark("[" + Digits(n, 1) + "]", n)
  {
    ValueOfDigits(n, 1);
    NoZeroInFront(n, 1);
    MarkIs(Digits(n, 1), n);
  }

  /** What the body of a line is made of: the signs for children and for a group leader, the pid, the
      name, the number of threads if there are several, and the command. */
  ghost predicate BodyTells(body: string, children: bool, leader: bool, pid: int, name: string, threads: nat, cmd: string) {
    |body| > 4 && body[0] == '-' && body[1] == (if children then '+' else '-') &&
    body[2] == (if leader then '=' else '-') && body[3] == ' ' &&
    exists field, mark :: TailTells(body[4..], field, mark, pid, name, threads, cmd)
  }

  predicate TailTells(tail: string, field: string, mark: string, pid: int, name: string, threads: nat, cmd: string) {
    tail == field + " " + (name + " " + (mark + cmd)) &&
    ' ' !in field && FiveWide(field) && ParsePid(field) == pid && ThreadMark(mark, threads)
  }

  function NameOf(body: string): string {
    if |body| < 4 then "" else var f := |UpTo(body[4..], ' ')|; if |body| < 5 + f then "" else UpTo(body[5 + f..], ' ')
  }

  /** What follows the name: the number of threads and the command. */
  function RestOf(body: string): string {
    if |body| < 4 then ""
    else var k := 6 + |UpTo(body[4..], ' ')| + |NameOf(body)|; if |body| < k then "" else body[k..]
  }

  lemma TailParts(tail: string, field: string, name: string, rest: string)
    requires tail == field + " " + (name + " " + rest)
    ensures tail[|field| + 1..] == name + " " + rest && tail[|field| + |name| + 2..] == rest
  {
  }

  lemma TailReadBack(body: string, field: string, name: string, rest: string)
    requires |body| > 4 && body[4..] == field + " " + (name + " " + rest) && ' ' !in field && ' ' !in name
    ensures UpTo(body[4..], ' ') == field && NameOf(body) == name && RestOf(body) == rest
  {
    var tail := body[4..];
    UpToStops(field, ' ', name + " " + rest);
    assert UpTo(tail, ' ') == field;
    TailParts(tail, field, name, rest);
    assert body[5 + |field|..] == tail[|field| + 1..];
    UpToStops(name, ' ', rest);
    assert UpTo(name + " " + rest, ' ') == name;
    assert body[6 + |field| + |name|..] == tail[|field| + |name| + 2..];
  }

  /** Everything in the body can be read back, if the name has no blank in it. */
  lemma BodyReadBack(body: string, children: bool, leader: bool, pid: int, name: string, threads: nat, cmd: string)
    requires BodyTells(body, children, leader, pid, name, threads, cmd) && ' ' !in name
    ensures PidOf(body) == pid && NameOf(body) == name
    ensures if threads <= 1 then RestOf(body) == cmd
            else RestOf(body) != "" && var n := UpTo(RestOf(body)[1..], ']');
                 Value(n) == threads && |n| + 2 <= |RestOf(body)| && RestOf(body)[|n| + 2..] == cmd
  {
    var field, mark :| TailTells(body[4..], field, mark, pid, name, threads, cmd);
    TailReadBack(body, field, name, mark + cmd);
    if threads > 1 {
      MarkReadBack(mark, threads, cmd);
    } else {
      ConcatNil(cmd);
    }
  }

  lemma MarkReadBack(mark: string, threads: nat, cmd: string)
    requires threads > 1 && ThreadMark(mark, threads)
    ensures var n := UpTo((mark + cmd)[1..], ']');
            Value(n) == threads && |n| + 2 == |mark| && (mark + cmd)[|n| + 2..] == cmd
  {
    var d := mark[1..|mark| - 1];
    assert (mark + cmd)[1..] == d + [']'] + cmd;
    UpToStops(d, ']', cmd);
  }

  // ----- lines ---------------------------------------------------------------------------

  function Line(head: string, more: bool, body: string): string {
    head + (if head == "" then "" else if more then "|" else "\\") + body
  }

  /** The head of the children of a line. */
  function NextHead(head: string, more: bool): string {
    head + (if head == "" then "" else if more then "|" else " ") + " "
  }

  /** The lines of a tree of bodies, in preorder. */
  function Lines(t: Tree<string>, head: string, more: bool): seq<string> {
    [Line(head, more, t.data)] + ForestLines(t.kids, NextHead(head, more))
  }

  function ForestLines(ts: seq<Tree<string>>, head: string): seq<string> {
    if ts == [] then [] else Lines(ts[0], head, |ts| > 1) + ForestLines(ts[1..], head)
  }

  /** A head at depth d: empty at the root, else 2d - 1 blanks and bars. */
  predicate HeadAt(head: string, d: nat) {
    |head| == (if d == 0 then 0 else 2 * d - 1) && forall k :: 0 <= k < |head| ==> head[k] == ' ' || head[k] == '|'
  }

  lemma NextHeadAt(head: string, more: bool, d: nat)
    requires HeadAt(head, d)
    ensures HeadAt(NextHead(head, more), d + 1)
  {
  }

  // ----- reading the text back -----------------------------------------------------------

  function FirstDash(s: string): (k: nat)
    ensures k <= |s|
  {
    if s == "" || s[0] == '-' then 0 else 1 + FirstDash(s[1..])
  }

  function DepthOf(line: string): nat {
    FirstDash(line) / 2
  }

  function BodyOf(line: string): string {
    line[FirstDash(line)..]
  }

  lemma {:induction false} FirstDashAfter(prefix: string, body: string)
    requires '-' !in prefix && body != "" && body[0] == '-'
    ensures FirstDash(prefix + body) == |prefix|
  {
    if prefix == "" {
      assert prefix + body == body;
    } else {
      FirstDashAfter(prefix[1..], body);
      assert (prefix + body)[1..] == prefix[1..] + body;
    }
  }

  /** A line tells its depth and its body. */
  lemma LineShows(head: string, more: bool, body: string, d: nat)
    requires HeadAt(head, d) && body != "" && body[0] == '-'
    ensures DepthOf(Line(head, more, body)) == d && BodyOf(Line(head, more, body)) == body
  {
    var prefix := head + (if head == "" then "" else if more then "|" else "\\");
    FirstDashAfter(prefix, body);
    assert Line(head, more, body) == prefix + body;
  }

  /** What a line tells. */
  datatype Row = Row(depth: nat, body: string)

  function Decode(lines: seq<string>): (rows: seq<Row>)
    ensures |rows| == |lines|
  {
    seq(|lines|, i requires 0 <= i < |lines| => Row(DepthOf(lines[i]), BodyOf(lines[i])))
  }

  lemma DecodeConcat(a: seq<string>, b: seq<string>)
    ensures Decode(a + b) == Decode(a) + Decode(b)
  {
  }

  /** The rows of a forest, in preorder. */
  function Rows(ts: seq<Tree<string>>, d: nat): seq<Row> {
    if ts == [] then [] else [Row(d, ts[0].data)] + (Rows(ts[0].kids, d + 1) + Rows(ts[1..], d))
  }

  /** Every body of the forest begins with a stem. */
  predicate Dashed(ts: seq<Tree<string>>) {
    ts == [] || (ts[0].data != "" && ts[0].data[0] == '-' && Dashed(ts[0].kids) && Dashed(ts[1..]))
  }

  /** Each printed line can be decoded on its own. */
  lemma {:induction false} DecodeForest(ts: seq<Tree<string>>, head: string, d: nat)
    requires HeadAt(head, d) && Dashed(ts)
    ensures Decode(ForestLines(ts, head)) == Rows(ts, d)
    decreases ts
  {
    if ts != [] {
      var t, more := ts[0], |ts| > 1;
      var line, kids, rest := Line(head, more, t.data), ForestLines(t.kids, NextHead(head, more)), ForestLines(ts[1..], head);
      NextHeadAt(head, more, d);
      LineShows(head, more, t.data, d);
      DecodeForest(t.kids, NextHead(head, more), d + 1);
      DecodeForest(ts[1..], head, d);
      DecodeConcat([line] + kids, rest);
      DecodeConcat([line], kids);
      assert Decode([line]) == [Row(d, t.data)];
      ConcatAssoc([Row(d, t.data)], Rows(t.kids, d + 1), Rows(ts[1..], d));
    }
  }

  /** The trees that start at depth d at the front of the rows, and the rows behind them. */
  function ReadForest(rows: seq<Row>, d: nat): (r: (seq<Tree<string>>, seq<Row>))
    ensures |r.1| <= |rows|
    decreases |rows|
  {
    if rows == [] || rows[0].depth != d then ([], rows)
    else
      var (kids, rest) := ReadForest(rows[1..], d + 1);
      var (sisters, rest') := ReadForest(rest, d);
      ([Node(rows[0].body, kids)] + sisters, rest')
  }

  lemma ReadCons(row: Row, rows: seq<Row>)
    ensures var (kids, rest) := ReadForest(rows, row.depth + 1);
            var (sisters, rest') := ReadForest(rest, row.depth);
            ReadForest([row] + rows, row.depth) == ([Node(row.body, kids)] + sisters, rest')
  {
    assert ([row] + rows)[1..] == rows;
  }

  lemma RowsFront(ts: seq<Tree<string>>, d: nat, rest: seq<Row>)
    requires rest == [] || rest[0].depth < d
    ensures Rows(ts, d) + rest == [] || (Rows(ts, d) + rest)[0].depth < d + 1
  {
    if ts == [] {
      ConcatNil(rest);
    }
  }

  lemma HeadTail(ts: seq<Tree<string>>)
    requires ts != []
    ensures [Node(ts[0].data, ts[0].kids)] + ts[1..] == ts
  {
  }

  /** Reading the rows of a forest gives the forest back, and stops where it ends. */
  lemma {:induction false} RowsRoundTrip(ts: seq<Tree<string>>, d: nat, rest: seq<Row>)
    requires rest == [] || rest[0].depth < d
    ensures ReadForest(Rows(ts, d) + rest, d) == (ts, rest)
    decreases ts
  {
    if ts == [] {
      ConcatNil(rest);
    } else {
      var t := ts[0];
      var row, kids, sisters := Row(d, t.data), Rows(t.kids, d + 1), Rows(ts[1..], d);
      RowsFront(ts[1..], d, rest);
      RowsRoundTrip(t.kids, d + 1, sisters + rest);
      RowsRoundTrip(ts[1..], d, rest);
      ReadCons(row, kids + (sisters + rest));
      ConcatAssoc(kids, sisters, rest);
      ConcatAssoc([row], kids + sisters, rest);
      HeadTail(ts);
    }
  }

  /** The tree a printed text shows: the inverse of `Lines`. */
  function Read(lines: seq<string>): seq<Tree<string>> {
    ReadForest(Decode(lines), 0).0
  }

  /** Printing can be undone. */
  lemma TextRoundTrip(t: Tree<string>)
    requires Dashed([t])
    ensures Read(Lines(t, "", false)) == [t]
  {
    DecodeForest([t], "", 0);
    ConcatNil(Lines(t, "", false));
    RowsRoundTrip([t], 0, []);
    ConcatNil(Rows([t], 0));
  }
}
