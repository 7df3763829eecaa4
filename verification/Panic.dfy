// The crash reporter's two walks over the stack, and the lines they print.
module Panic {
  import opened Hex

  const LINE_SIZE := 256
  const FIELD_SIZE := 64
  const BACKTRACE_LIMIT := 64
  const CODE_LIMIT: nat := 0x3fffffffffff

  // What the k-th unw_step returns, and the registers that can be read after it.
  datatype Frame = Frame(ret: int, ip: Word, sp: Word)

  datatype Registers =
    Registers(rax: Word, rbx: Word, rcx: Word, rdx: Word, rdi: Word, rsi: Word, rbp: Word, r8: Word, r9: Word,
              r10: Word, r11: Word, r12: Word, r13: Word, r14: Word, r15: Word)

  // An unwinder: starting from the same context it takes the same steps.
  // initError is what unw_init_local returns; registers(k) is what can be read
  // after step k.
  datatype Unwinder = Unwinder(initError: int, step: nat -> Frame, registers: nat -> Registers)

  datatype Printed = Error(code: int) | Text(text: string)

  // ---------- lines ----------

  // snprintf into a buffer of that size.
  function Clip(s: string, size: nat): string
    requires size > 0
  {
    if |s| < size then s else s[..size - 1]
  }

  function Cell(tag: string, w: Word): string {
    tag + "0x" + Padded(w, 16)
  }

  // Labelled words, side by side.
  function Cells(labels: seq<string>, values: seq<Word>): string
    requires |labels| == |values|
  {
    if labels == [] then "\n"
    else Cell(labels[0], values[0]) + Cells(labels[1..], values[1..])
  }

  function CellText(line: string, k: nat): string
    requires 27 * k + 27 <= |line|
  {
    line[27 * k + 11..27 * k + 27]
  }

  lemma {:induction false} CellsRead(labels: seq<string>, values: seq<Word>)
    requires |labels| == |values| && forall k :: 0 <= k < |labels| ==> |labels[k]| == 9
    ensures |Cells(labels, values)| == 27 * |labels| + 1
    ensures forall k :: 0 <= k < |labels| ==> ReadHex(CellText(Cells(labels, values), k)) == values[k]
  {
    if labels != [] {
      CellsRead(labels[1..], values[1..]);
      var rest := Cells(labels[1..], values[1..]);
      FirstCell(labels[0], values[0], rest);
      forall k | 0 <= k < |labels| ensures ReadHex(CellText(Cells(labels, values), k)) == values[k] {
        if k > 0 {
          LaterCell(labels[0], values[0], rest, k);
          assert values[k] == values[1..][k - 1];
        }
      }
    }
  }

  lemma FirstCell(tag: string, w: Word, rest: string)
    requires |tag| == 9
    ensures var line := tag + "0x" + Padded(w, 16) + rest;
            |line| == 27 + |rest| && CellText(line, 0) == Padded(w, 16) && ReadHex(CellText(line, 0)) == w
  {
    WordReads(w);
  }

  lemma {:induction false} LaterCell(tag: string, w: Word, rest: string, k: nat)
    requires |tag| == 9 && k > 0 && 27 * k <= |rest|
    ensures CellText(tag + "0x" + Padded(w, 16) + rest, k) == CellText(rest, k - 1)
  {
    hide Padded;
    var cell := tag + "0x" + Padded(w, 16);
    assert |cell| == 27;
  }

  const IP_LABELS: seq<string> := ["     IP: ", "     SP: "]

  // The five rows of general registers.
  function RowLabels(r: nat): (labels: seq<string>)
    requires r < 5
    ensures |labels| == 3 && |labels[0]| == 9 && |labels[1]| == 9 && |labels[2]| == 9
  {
    match r
    case 0 => ["    RAX: ", "[R] RDI: ", "[0] R11: "]
    case 1 => ["    RBX: ", "    RBP: ", "    R12: "]
    case 2 => ["    RCX: ", "[3]  R8: ", "[4] R13: "]
    case 3 => ["    RDX: ", "[2]  R9: ", "[5] R14: "]
    case 4 => ["    RSI: ", "[1] R10: ", "    R15: "]
  }

  function RowWords(g: Registers, r: nat): (words: seq<Word>)
    requires r < 5
    ensures |words| == 3
  {
    match r
    case 0 => [g.rax, g.rdi, g.r11]
    case 1 => [g.rbx, g.rbp, g.r12]
    case 2 => [g.rcx, g.r8, g.r13]
    case 3 => [g.rdx, g.r9, g.r14]
    case 4 => [g.rsi, g.r10, g.r15]
  }

  function Row(g: Registers, r: nat): string
    requires r < 5
  {
    Cells(RowLabels(r), RowWords(g, r))
  }

  // Each line of registers fits its buffer and gives its words back.
  lemma {:induction false} RegisterRowFits(g: Registers, r: nat)
    requires r < 5
    ensures Clip(Row(g, r), LINE_SIZE) == Row(g, r) && |Row(g, r)| == 82
    ensures forall c :: 0 <= c < 3 ==> ReadHex(CellText(Row(g, r), c)) == RowWords(g, r)[c]
  {
    hide Cells, ReadHex, RowLabels, RowWords;
    CellsRead(RowLabels(r), RowWords(g, r));
  }

  // "...0x%016...0x%016...0x%016\n"
  function Line3(a: string, x: Word, b: string, y: Word, c: string, z: Word): string {
    a + "0x" + Padded(x, 16) + (b + "0x" + Padded(y, 16) + (c + "0x" + Padded(z, 16) + "\n"))
  }

  lemma ThreeCells(a: string, b: string, c: string, x: Word, y: Word, z: Word)
    ensures Cells([a, b, c], [x, y, z]) == Line3(a, x, b, y, c, z)
  {
    hide Padded;
    assert [a, b, c][1..] == [b, c] && [b, c][1..] == [c] && [c][1..] == [];
    assert [x, y, z][1..] == [y, z] && [y, z][1..] == [z] && [z][1..] == [];
    assert Cells([c], [z]) == Cell(c, z) + "\n";
    assert Cells([b, c], [y, z]) == Cell(b, y) + Cells([c], [z]);
  }

  // Each row as the report prints it: every register after its own name.
  lemma RowsAre(g: Registers)
    ensures Row(g, 0) == Line3("    RAX: ", g.rax, "[R] RDI: ", g.rdi, "[0] R11: ", g.r11)
    ensures Row(g, 1) == Line3("    RBX: ", g.rbx, "    RBP: ", g.rbp, "    R12: ", g.r12)
    ensures Row(g, 2) == Line3("    RCX: ", g.rcx, "[3]  R8: ", g.r8, "[4] R13: ", g.r13)
    ensures Row(g, 3) == Line3("    RDX: ", g.rdx, "[2]  R9: ", g.r9, "[5] R14: ", g.r14)
    ensures Row(g, 4) == Line3("    RSI: ", g.rsi, "[1] R10: ", g.r10, "    R15: ", g.r15)
  {
    hide Line3, Cells;
    ThreeCells("    RAX: ", "[R] RDI: ", "[0] R11: ", g.rax, g.rdi, g.r11);
    ThreeCells("    RBX: ", "    RBP: ", "    R12: ", g.rbx, g.rbp, g.r12);
    ThreeCells("    RCX: ", "[3]  R8: ", "[4] R13: ", g.rcx, g.r8, g.r13);
    ThreeCells("    RDX: ", "[2]  R9: ", "[5] R14: ", g.rdx, g.r9, g.r14);
    ThreeCells("    RSI: ", "[1] R10: ", "    R15: ", g.rsi, g.r10, g.r15);
  }

  lemma TwoCells(a: string, b: string, x: Word, y: Word)
    ensures Cells([a, b], [x, y]) == a + "0x" + Padded(x, 16) + (b + "0x" + Padded(y, 16) + "\n")
  {
    assert [a, b][1..] == [b] && [b][1..] == [] && [x, y][1..] == [y] && [y][1..] == [];
    hide Padded;
    assert Cells([b], [y]) == Cell(b, y) + "\n";
  }

  lemma IpSpLineFits(ip: Word, sp: Word)
    ensures var line := Cells(IP_LABELS, [ip, sp]);
            && line == "     IP: " + "0x" + Padded(ip, 16) + ("     SP: " + "0x" + Padded(sp, 16) + "\n")
            && Clip(line, LINE_SIZE) == line && |line| == 55
            && ReadHex(CellText(line, 0)) == ip && ReadHex(CellText(line, 1)) == sp
  {
    CellsRead(IP_LABELS, [ip, sp]);
    TwoCells("     IP: ", "     SP: ", ip, sp);
    hide Cells, ReadHex, Padded;
  }

  // ---------- the backtrace line ----------

  function Hint(ip: Word, program: string): string {
    Clip(" # addr2line -a 0x" + Plain(ip) + " -e " + program, FIELD_SIZE)
  }

  // The columns up to the instruction pointer, the stack pointer and the field.
  function UpToIp(i: nat): (s: string)
    requires i < 1000
    ensures |s| == 9
  {
    "  " + Width3(i) + ": 0x"
  }

  function UpToSp(i: nat, ip: Word): (s: string)
    requires i < 1000
    ensures |s| == 29
  {
    UpToIp(i) + Padded(ip, 16) + " (0x"
  }

  function UpToField(i: nat, ip: Word, sp: Word): (s: string)
    requires i < 1000
    ensures |s| == 46
  {
    UpToSp(i, ip) + Padded(sp, 16) + ")"
  }

  function FrameText(i: nat, ip: Word, sp: Word, field: string): string
    requires i < 1000
  {
    UpToField(i, ip, sp) + field + "\n"
  }

  function FrameLine(i: nat, f: Frame, hint: bool, program: string): string
    requires i < 1000
  {
    Clip(FrameText(i, f.ip, f.sp, if hint then Hint(f.ip, program) else ""), LINE_SIZE)
  }

  datatype Reading = Reading(index: nat, ip: nat, sp: nat, field: string)

  // Reading a backtrace line by its columns.
  function ReadFrame(line: string): Reading
    requires |line| >= 47
  {
    Reading(ReadWidth3(line[2..5]), ReadHex(line[9..25]), ReadHex(line[29..45]), line[46..|line| - 1])
  }

  // For every frame and every program name the line is whole, newline
  // included, and gives back the index, both words and the hint.
  lemma FrameLineReads(i: nat, f: Frame, hint: bool, program: string)
    requires i < 1000
    ensures var line := FrameLine(i, f, hint, program);
            var field := if hint then Hint(f.ip, program) else "";
            && line == FrameText(i, f.ip, f.sp, field)
            && line == "  " + Width3(i) + ": 0x" + Padded(f.ip, 16) + " (0x" + Padded(f.sp, 16) + ")" + field + "\n"
            && 47 <= |line| <= 110 && line[|line| - 1] == '\n'
            && ReadFrame(line) == Reading(i, f.ip, f.sp, field)
  {
    var field := if hint then Hint(f.ip, program) else "";
    var line := FrameText(i, f.ip, f.sp, field);
    assert |field| < FIELD_SIZE;
    FrameColumns(i, f.ip, f.sp, field);
    Width3Reads(i);
    WordReads(f.ip);
    WordReads(f.sp);
  }

  lemma {:induction false} FrameColumns(i: nat, ip: Word, sp: Word, field: string)
    requires i < 1000
    ensures var line := FrameText(i, ip, sp, field);
            && |line| == 47 + |field| && line[|line| - 1] == '\n'
            && line[2..5] == Width3(i) && line[9..25] == Padded(ip, 16) && line[29..45] == Padded(sp, 16)
            && line[46..|line| - 1] == field
  {
    var (line, a, b, c) := (FrameText(i, ip, sp, field), UpToIp(i), UpToSp(i, ip), UpToField(i, ip, sp));
    assert a[2..5] == Width3(i);
    assert b[..9] == a && b[9..25] == Padded(ip, 16);
    assert c[..29] == b && c[29..45] == Padded(sp, 16);
    hide UpToIp, UpToSp, UpToField, Width3, Padded;
    assert line[..46] == c;
    Within(line, c, 29, 45);
    Within(line, c, 9, 25);
    Within(line, c, 2, 5);
    Within(c, b, 9, 25);
    Within(c, b, 2, 5);
    Within(b, a, 2, 5);
  }

  // A slice of a prefix is a slice of the whole.
  lemma Within(s: string, prefix: string, from: nat, to: nat)
    requires prefix <= s && from <= to <= |prefix|
    ensures s[from..to] == prefix[from..to]
  {}

  // A hint short enough is shown whole; a longer one is cut, never the line.
  lemma HintShown(ip: Word, program: string)
    ensures var full := " # addr2line -a 0x" + Plain(ip) + " -e " + program;
            && Hint(ip, program) <= full
            && (Hint(ip, program) == full <==> |program| + |Plain(ip)| <= 41)
            && |Hint(ip, program)| < FIELD_SIZE
  {}

  // ---------- the first walk ----------

  datatype Search = Hit(k: nat) | Fallback | Broken

  // The first of the steps from k on that is in the program's code, unless a
  // step fails before it.  A step that finds no more frames is not noticed.
  function Find(u: Unwinder, k: nat): Search
    requires k <= BACKTRACE_LIMIT
    decreases BACKTRACE_LIMIT - k
  {
    if k == BACKTRACE_LIMIT then Fallback
    else if u.step(k).ret < 0 then Broken
    else if u.step(k).ip < CODE_LIMIT then Hit(k)
    else Find(u, k + 1)
  }

  function Rows(g: Registers, n: nat): seq<Printed>
    requires n <= 5
  {
    if n == 0 then [] else Rows(g, n - 1) + [Text(Clip(Row(g, n - 1), LINE_SIZE))]
  }

  function RegisterLines(u: Unwinder, k: nat): seq<Printed>
  {
    IpSpLines(u.step(k).ip, u.step(k).sp) + Rows(u.registers(k), 5)
  }

  function IpSpLines(ip: Word, sp: Word): seq<Printed> {
    [Text("Registers:\n"), Text(Clip(Cells(IP_LABELS, [ip, sp]), LINE_SIZE))]
  }

  // The frame whose registers are shown.
  function ShownFrame(u: Unwinder): nat {
    var found := Find(u, 0);
    if found.Hit? then found.k else 0
  }

  // A failed step is reported with the error code of the initialisation, which
  // was 0.
  method PrintRegisters(u: Unwinder) returns (index: int, out: seq<Printed>)
    ensures index == if u.initError != 0 || Find(u, 0).Broken? then -1
                     else if Find(u, 0).Hit? then Find(u, 0).k
                     else BACKTRACE_LIMIT
    ensures out == if u.initError != 0 then [Error(u.initError)]
                   else if Find(u, 0).Broken? then [Error(0)]
                   else RegisterLines(u, ShownFrame(u))
  {
    hide Rows, IpSpLines;
    var err := u.initError;
    if err != 0 {
      return -1, [Error(err)];
    }
    var cursor := 0;
    var ip: Word, sp: Word := 0, 0;
    index := 0;
    while index < BACKTRACE_LIMIT
      invariant 0 <= index <= BACKTRACE_LIMIT && cursor == index
      invariant Find(u, index) == Find(u, 0)
    {
      var f := u.step(cursor);
      cursor := cursor + 1;
      if f.ret < 0 {
        return -1, [Error(err)];
      }
      ip, sp := f.ip, f.sp;
      if ip < CODE_LIMIT {
        break;
      }
      index := index + 1;
    }
    if index == BACKTRACE_LIMIT {
      cursor := 1;
      ip, sp := u.step(0).ip, u.step(0).sp;
    }
    out := IpSpLines(ip, sp);
    var rows := PrintGeneralRegisters(u.registers(cursor - 1));
    out := out + rows;
  }

  method PrintGeneralRegisters(g: Registers) returns (out: seq<Printed>)
    ensures out == Rows(g, 5)
  {
    out := [];
    for r := 0 to 5
      invariant out == Rows(g, r)
    {
      out := out + [Text(Clip(Row(g, r), LINE_SIZE))];
    }
  }

  // ---------- the second walk ----------

  // How many frames the second walk shows, from step k on.
  function Frames(u: Unwinder, k: nat): (n: nat)
    requires k <= BACKTRACE_LIMIT
    ensures k <= n <= BACKTRACE_LIMIT
    ensures forall j :: k <= j < n ==> u.step(j).ret > 0
    ensures n < BACKTRACE_LIMIT ==> u.step(n).ret <= 0
    decreases BACKTRACE_LIMIT - k
  {
    if k == BACKTRACE_LIMIT || u.step(k).ret <= 0 then k else Frames(u, k + 1)
  }

  function BacktraceLines(u: Unwinder, index: int, program: string, n: nat): (lines: seq<Printed>)
    requires n <= BACKTRACE_LIMIT
    ensures |lines| == n + 1
  {
    if n == 0 then [Text("Backtrace:\n")]
    else BacktraceLines(u, index, program, n - 1) + [Text(FrameLine(n - 1, u.step(n - 1), n - 1 == index, program))]
  }

  lemma {:induction false} BacktraceLineAt(u: Unwinder, index: int, program: string, n: nat, i: nat)
    requires i < n <= BACKTRACE_LIMIT
    ensures BacktraceLines(u, index, program, n)[i + 1] == Text(FrameLine(i, u.step(i), i == index, program))
  {
    hide FrameLine;
    if i < n - 1 {
      BacktraceLineAt(u, index, program, n - 1, i);
    }
  }

  method PrintBacktrace(u: Unwinder, index: int, program: string) returns (out: seq<Printed>)
    ensures u.initError != 0 ==> out == [Error(u.initError)]
    ensures u.initError == 0 ==>
      var n := Frames(u, 0);
      out == BacktraceLines(u, index, program, n)
             + (if n < BACKTRACE_LIMIT && u.step(n).ret < 0 then [Error(u.step(n).ret)] else [])
  {
    if u.initError != 0 {
      return [Error(u.initError)];
    }
    hide Clip, FrameText, Plain;
    out := [Text("Backtrace:\n")];
    for i := 0 to BACKTRACE_LIMIT
      invariant Frames(u, i) == Frames(u, 0)
      invariant out == BacktraceLines(u, index, program, i)
    {
      var f := u.step(i);
      if f.ret < 0 {
        out := out + [Error(f.ret)];
        break;
      }
      if f.ret == 0 {
        break;
      }
      var field := "";
      if i == index {
        field := Clip(" # addr2line -a 0x" + Plain(f.ip) + " -e " + program, FIELD_SIZE);
      }
      out := out + [Text(Clip(FrameText(i, f.ip, f.sp, field), LINE_SIZE))];
    }
  }

  // ---------- the walks agree ----------

  // A hit is the least frame in the program's code, and no step up to it failed.
  lemma {:induction false} FindIs(u: Unwinder, k: nat)
    requires k <= BACKTRACE_LIMIT
    ensures forall j: nat :: Find(u, k) == Hit(j) <==>
      k <= j < 64 && u.step(j).ip < 0x3fffffffffff && u.step(j).ret >= 0
      && forall i :: k <= i < j ==> u.step(i).ip >= 0x3fffffffffff && u.step(i).ret >= 0
    ensures Find(u, k).Fallback? <==>
      forall i :: k <= i < 64 ==> u.step(i).ip >= 0x3fffffffffff && u.step(i).ret >= 0
    decreases BACKTRACE_LIMIT - k
  {
    if k < BACKTRACE_LIMIT {
      FindIs(u, k + 1);
    }
  }

  // The frames whose lines, read back, carry a hint.
  ghost function Hinted(lines: seq<Printed>): set<nat> {
    set i: nat | i < |lines| && HintAt(lines, i)
  }

  predicate HintAt(lines: seq<Printed>, i: nat) {
    i + 1 < |lines| && CarriesHint(lines[i + 1])
  }

  predicate CarriesHint(p: Printed) {
    p.Text? && |p.text| >= 47 && ReadFrame(p.text).field != ""
  }

  lemma {:induction false} HintedLines(u: Unwinder, index: int, program: string)
    ensures Hinted(BacktraceLines(u, index, program, Frames(u, 0)))
         == if 0 <= index < Frames(u, 0) then {index as nat} else {}
  {
    hide CarriesHint, FrameLine, BacktraceLines, Frames;
    var n := Frames(u, 0);
    var lines := BacktraceLines(u, index, program, n);
    forall i: nat | i < n ensures HintAt(lines, i) <==> i == index {
      BacktraceLineAt(u, index, program, n, i);
      LineHints(i, u.step(i), i == index, program);
    }
  }

  lemma {:induction false} LineHints(i: nat, f: Frame, hint: bool, program: string)
    requires i < 1000
    ensures CarriesHint(Text(FrameLine(i, f, hint, program))) <==> hint
  {
    hide FrameLine, ReadFrame;
    FrameLineReads(i, f, hint, program);
    assert Hint(f.ip, program) != "";
  }

  // If the first walk finds frame k and every step so far yielded a frame, the
  // second hints at line k and no other; that line shows the instruction and
  // stack pointers that the register lines show, and no earlier frame is in
  // the program's code.  If a step before k found no more frames, no line is
  // hinted at.
  lemma {:induction false} WalksAgree(u: Unwinder, program: string)
    requires Find(u, 0).Hit?
    ensures var k := Find(u, 0).k;
            && Hinted(BacktraceLines(u, k, program, Frames(u, 0)))
               == (if forall i :: 0 <= i <= k ==> u.step(i).ret > 0 then {k} else {})
            && (forall i :: 0 <= i < k ==> u.step(i).ip >= CODE_LIMIT) && u.step(k).ip < CODE_LIMIT
            && (k < Frames(u, 0) ==>
                  SameFrame(RegisterLines(u, ShownFrame(u)), BacktraceLines(u, k, program, Frames(u, 0)), k))
  {
    var k := Find(u, 0).k;
    FindIs(u, 0);
    assert Find(u, 0) == Hit(k);
    HintedLines(u, k, program);
    if k < Frames(u, 0) {
      FrameShown(u, k, program, k);
    }
  }

  // If it falls back, the registers are those of the first frame and no line
  // is hinted at.
  lemma {:induction false} FallbackAgrees(u: Unwinder, program: string)
    requires Find(u, 0).Fallback?
    ensures Hinted(BacktraceLines(u, BACKTRACE_LIMIT, program, Frames(u, 0))) == {}
    ensures Frames(u, 0) > 0 ==>
      SameFrame(RegisterLines(u, ShownFrame(u)), BacktraceLines(u, BACKTRACE_LIMIT, program, Frames(u, 0)), 0)
  {
    HintedLines(u, BACKTRACE_LIMIT, program);
    hide Hinted, Frames, BacktraceLines, RegisterLines, SameFrame;
    if Frames(u, 0) > 0 {
      FrameShown(u, 0, program, BACKTRACE_LIMIT);
    }
  }

  // Register line and backtrace line i + 1, read back, name the same words.
  ghost predicate SameFrame(registers: seq<Printed>, backtrace: seq<Printed>, i: nat) {
    && |registers| > 1 && registers[1].Text? && |registers[1].text| == 55
    && i + 1 < |backtrace| && backtrace[i + 1].Text? && |backtrace[i + 1].text| >= 47
    && ReadFrame(backtrace[i + 1].text).index == i
    && ReadFrame(backtrace[i + 1].text).ip == ReadHex(CellText(registers[1].text, 0))
    && ReadFrame(backtrace[i + 1].text).sp == ReadHex(CellText(registers[1].text, 1))
  }

  lemma {:induction false} FrameShown(u: Unwinder, k: nat, program: string, index: int)
    requires k < Frames(u, 0)
    ensures SameFrame(RegisterLines(u, k), BacktraceLines(u, index, program, Frames(u, 0)), k)
  {
    var f := u.step(k);
    var n := Frames(u, 0);
    hide BacktraceLines, Frames, RegisterLines, FrameLine, Cells, ReadFrame, CellText, ReadHex, SameFrame;
    RegisterLinesBegin(u, k);
    IpSpLineFits(f.ip, f.sp);
    FrameLineReads(k, f, k == index, program);
    var line := Cells(IP_LABELS, [f.ip, f.sp]);
    var shown := FrameLine(k, f, k == index, program);
    BacktraceLineAt(u, index, program, n, k);
    SameWords(RegisterLines(u, k), BacktraceLines(u, index, program, n), k, line, shown);
  }

  lemma {:induction false} RegisterLinesBegin(u: Unwinder, k: nat)
    ensures |RegisterLines(u, k)| > 1
    ensures RegisterLines(u, k)[1] == Text(Clip(Cells(IP_LABELS, [u.step(k).ip, u.step(k).sp]), LINE_SIZE))
  {
    hide Cells, Clip, Rows;
  }

  // All register lines: the heading, the pointers and the five rows.
  lemma RegisterLinesAre(u: Unwinder, k: nat)
    ensures RegisterLines(u, k)
         == [Text("Registers:\n"), Text(Cells(["     IP: ", "     SP: "], [u.step(k).ip, u.step(k).sp]))]
            + [Text(Row(u.registers(k), 0)), Text(Row(u.registers(k), 1)), Text(Row(u.registers(k), 2)),
               Text(Row(u.registers(k), 3)), Text(Row(u.registers(k), 4))]
  {
    IpSpLineFits(u.step(k).ip, u.step(k).sp);
    RowsText(u.registers(k));
    hide Cells, Row, Clip, Rows, ReadHex, Padded;
  }

  lemma RowsText(g: Registers)
    ensures Rows(g, 5) == [Text(Row(g, 0)), Text(Row(g, 1)), Text(Row(g, 2)), Text(Row(g, 3)), Text(Row(g, 4))]
  {
    hide *;
    RowAt(g, 5, 0);
    RowAt(g, 5, 1);
    RowAt(g, 5, 2);
    RowAt(g, 5, 3);
    RowAt(g, 5, 4);
  }

  lemma {:induction false} RowAt(g: Registers, n: nat, i: nat)
    requires i < n <= 5
    ensures |Rows(g, n)| == n && Rows(g, n)[i] == Text(Row(g, i))
  {
    if n > 1 {
      RowAt(g, n - 1, if i < n - 1 then i else 0);
    }
    RegisterRowFits(g, i);
    hide Row, Clip;
  }

  // The backtrace begins with its heading.
  lemma {:induction false} BacktraceBegins(u: Unwinder, index: int, program: string, n: nat)
    requires n <= 64
    ensures BacktraceLines(u, index, program, n)[0] == Text("Backtrace:\n")
  {
    if n > 0 {
      hide FrameLine;
      BacktraceBegins(u, index, program, n - 1);
    }
  }

  lemma {:induction false} SameWords(registers: seq<Printed>, backtrace: seq<Printed>, i: nat, line: string,
                                     shown: string)
    requires |registers| > 1 && registers[1] == Text(line) && |line| == 55
    requires i + 1 < |backtrace| && backtrace[i + 1] == Text(shown) && |shown| >= 47
    requires ReadFrame(shown).index == i
    requires ReadFrame(shown).ip == ReadHex(CellText(line, 0)) && ReadFrame(shown).sp == ReadHex(CellText(line, 1))
    ensures SameFrame(registers, backtrace, i)
  {
    hide ReadFrame, ReadHex, CellText;
  }
}
