/** The fstab editor of the mount step (internal/step/mount/ensure_mount_op.go): looking up, ensuring and
    removing the line of a mount point in the text of the file. */
module Fstab {
  import opened Wrappers

  /** The fields of the op that the fstab code reads. */
  datatype MountOp = MountOp(src: string, dest: string, fstype: string, opts: string)

  // Strings: what the library functions compute
  // ---------------------------------------------------------------------------

  const NEWLINE: char := '\n'

  /** White space in the Unicode sense. */
  predicate IsSpace(c: char) {
    || c == ' ' || '\t' <= c <= '\r' || c == '\U{0085}' || c == '\U{00A0}' || c == '\U{1680}'
    || '\U{2000}' <= c <= '\U{200A}' || c == '\U{2028}' || c == '\U{2029}' || c == '\U{202F}'
    || c == '\U{205F}' || c == '\U{3000}'
  }

  /** The same by code points: U+0009..U+000D, the space, U+0085, U+00A0, and the space separators. */
  lemma WhiteSpaceCodes(c: char)
    ensures var n := c as int;
      IsSpace(c) <==>
        || 9 <= n <= 13 || n == 32 || n == 133 || n == 160 || n == 5760 || 8192 <= n <= 8202
        || n == 8232 || n == 8233 || n == 8239 || n == 8287 || n == 12288
  {
  }

  ghost predicate HasNoSpace(s: string) {
    forall c :: c in s ==> !IsSpace(c)
  }

  /** The lines of a text; a text without a newline is one line, the empty text too. */
  function Split(s: string): (lines: seq<string>)
    ensures |lines| > 0
  {
    if s == "" then [""]
    else
      var rest := Split(s[1..]);
      if s[0] == NEWLINE then [""] + rest else [[s[0]] + rest[0]] + rest[1..]
  }

  function Join(lines: seq<string>): string {
    if lines == [] then ""
    else if |lines| == 1 then lines[0]
    else lines[0] + [NEWLINE] + Join(lines[1..])
  }

  function TrimLeft(s: string): (t: string)
    ensures t == "" || !IsSpace(t[0])
    ensures |t| <= |s|
  {
    if s == "" || !IsSpace(s[0]) then s else TrimLeft(s[1..])
  }

  function TrimRight(s: string): string {
    if s == "" || !IsSpace(s[|s| - 1]) then s else TrimRight(s[..|s| - 1])
  }

  function TrimSpace(s: string): string {
    TrimRight(TrimLeft(s))
  }

  /** The longest prefix without white space. */
  function Word(s: string): (w: string)
    ensures |w| <= |s| && w == s[..|w|]
  {
    if s == "" || IsSpace(s[0]) then "" else [s[0]] + Word(s[1..])
  }

  function Fields(s: string): seq<string>
    decreases |s|
  {
    var t := TrimLeft(s);
    if t == "" then [] else [Word(t)] + Fields(t[|Word(t)|..])
  }

  // The file
  // ---------------------------------------------------------------------------

  function FstabLine(op: MountOp): string {
    op.src + " " + op.dest + " " + op.fstype + " " + op.opts + " 0 0"
  }

  /** A line, not a comment, whose second field is the mount point. */
  ghost predicate IsEntry(line: string, dest: string) {
    var t := TrimSpace(line);
    t != "" && t[0] != '#' && |Fields(t)| >= 2 && Fields(t)[1] == dest
  }

  ghost predicate HasEntry(lines: seq<string>, dest: string) {
    exists line :: line in lines && IsEntry(line, dest)
  }

  /** The first entry for the mount point, without the white space around it. */
  ghost function FirstEntry(lines: seq<string>, dest: string): Option<string> {
    if lines == [] then None
    else if IsEntry(lines[0], dest) then Some(TrimSpace(lines[0]))
    else FirstEntry(lines[1..], dest)
  }

  /** Every entry for the mount point becomes the wanted line; all other lines stay. */
  ghost function Replaced(lines: seq<string>, op: MountOp): (r: seq<string>)
    ensures |r| == |lines|
    ensures forall i :: 0 <= i < |r| ==> r[i] == if IsEntry(lines[i], op.dest) then FstabLine(op) else lines[i]
  {
    seq(|lines|, i requires 0 <= i < |lines| => if IsEntry(lines[i], op.dest) then FstabLine(op) else lines[i])
  }

  predicate EndsLine(s: string) {
    s != "" && s[|s| - 1] == NEWLINE
  }

  /** The text is some lines, each with its newline. */
  ghost predicate HasFinalNewline(s: string) {
    exists t: string :: s == t + [NEWLINE]
  }

  lemma EndsLineIff(s: string)
    ensures EndsLine(s) <==> HasFinalNewline(s)
  {
    if EndsLine(s) {
      assert s == s[..|s| - 1] + [NEWLINE];
    }
  }

  /** What a run with this op makes of the lines of a text. */
  ghost function EnsuredLines(text: string, op: MountOp): seq<string> {
    var lines := Split(text);
    if HasEntry(lines, op.dest) then Replaced(lines, op)
    else lines + (if HasFinalNewline(text) then [] else [""]) + [FstabLine(op)]
  }

  ghost function Ensured(text: string, op: MountOp): string {
    Join(EnsuredLines(text, op))
  }

  /** The lines that are not entries for the mount point. */
  ghost function Others(lines: seq<string>, dest: string): seq<string> {
    if lines == [] then []
    else (if IsEntry(lines[0], dest) then [] else [lines[0]]) + Others(lines[1..], dest)
  }

  ghost function Removed(text: string, dest: string): string {
    Join(Others(Split(text), dest))
  }

  ghost function Found(text: string, dest: string): Option<string> {
    FirstEntry(Split(text), dest)
  }

  // Splitting and joining
  // ---------------------------------------------------------------------------

  lemma {:induction false} JoinSplit(s: string)
    ensures Join(Split(s)) == s
    decreases |s|
  {
    if s != "" {
      JoinSplit(s[1..]);
      var rest := Split(s[1..]);
      if s[0] == NEWLINE {
        assert ([""] + rest)[1..] == rest;
      } else {
        var first := [s[0]] + rest[0];
        assert ([first] + rest[1..])[1..] == rest[1..];
        assert Join([first] + rest[1..]) == [s[0]] + Join(rest);
      }
      assert s == [s[0]] + s[1..];
    }
  }

  lemma {:induction false} SplitHasNoNewline(s: string)
    ensures forall line :: line in Split(s) ==> NEWLINE !in line
    decreases |s|
  {
    if s != "" {
      SplitHasNoNewline(s[1..]);
      var rest := Split(s[1..]);
      assert rest[0] in rest;
      assert forall line :: line in rest[1..] ==> line in rest;
    }
  }

  /** A character in front of a text. */
  ghost function Prepend(c: char, lines: seq<string>): seq<string>
    requires lines != []
  {
    if c == NEWLINE then [""] + lines else [[c] + lines[0]] + lines[1..]
  }

  lemma SplitHead(c: char, s: string)
    ensures Split([c] + s) == Prepend(c, Split(s))
  {
    assert ([c] + s)[1..] == s;
  }

  lemma PrependConcat(c: char, x: seq<string>, y: seq<string>)
    requires x != []
    ensures Prepend(c, x + y) == Prepend(c, x) + y
  {
    assert (x + y)[1..] == x[1..] + y;
  }

  lemma {:induction false} SplitConcat(a: string, b: string)
    ensures Split(a + [NEWLINE] + b) == Split(a) + Split(b)
    decreases |a|
  {
    if a == "" {
      assert a + [NEWLINE] + b == [NEWLINE] + b;
      SplitHead(NEWLINE, b);
    } else {
      hide Split;
      var c, rest := a[0], a[1..];
      SplitConcat(rest, b);
      hide Prepend;
      var text := rest + [NEWLINE] + b;
      assert a == [c] + rest;
      assert a + [NEWLINE] + b == [c] + text;
      SplitHead(c, text);
      SplitHead(c, rest);
      PrependConcat(c, Split(rest), Split(b));
    }
  }

  lemma {:induction false} SplitLine(line: string)
    requires NEWLINE !in line
    ensures Split(line) == [line]
    decreases |line|
  {
    if line != "" {
      SplitLine(line[1..]);
      assert line == [line[0]] + line[1..];
    }
  }

  lemma {:induction false} SplitJoin(lines: seq<string>)
    requires lines != [] && forall line :: line in lines ==> NEWLINE !in line
    ensures Split(Join(lines)) == lines
    decreases |lines|
  {
    SplitLine(lines[0]);
    if |lines| > 1 {
      hide Split;
      var rest := lines[1..];
      assert forall line :: line in rest ==> line in lines;
      SplitJoin(rest);
      SplitConcat(lines[0], Join(rest));
      assert lines == [lines[0]] + rest;
    } else {
      assert lines == [lines[0]];
    }
  }

  lemma {:induction false} JoinAppend(a: seq<string>, b: seq<string>)
    requires a != [] && b != []
    ensures Join(a + b) == Join(a) + [NEWLINE] + Join(b)
    decreases |a|
  {
    assert (a + b)[1..] == a[1..] + b;
    if |a| > 1 {
      JoinAppend(a[1..], b);
    }
  }

  /** A line of joined pieces is a line of one of the pieces. */
  lemma {:induction false} SplitJoinMember(pieces: seq<string>, line: string) returns (piece: string)
    requires pieces != [] && line in Split(Join(pieces))
    ensures piece in pieces && line in Split(piece)
    decreases |pieces|
  {
    piece := pieces[0];
    if |pieces| > 1 {
      hide Split;
      SplitConcat(pieces[0], Join(pieces[1..]));
      if line !in Split(pieces[0]) {
        piece := SplitJoinMember(pieces[1..], line);
      }
    }
  }

  lemma {:induction false} LineIsNoLonger(text: string, line: string)
    requires line in Split(text)
    ensures |line| <= |text| && (NEWLINE in text ==> |line| < |text|)
    ensures line == Split(text)[0] ==> line == text[..|line|]
    decreases |text|
  {
    if text != "" {
      var rest := Split(text[1..]);
      assert text == [text[0]] + text[1..];
      if text[0] == NEWLINE {
        if line in rest {
          LineIsNoLonger(text[1..], line);
        }
      } else {
        LineIsNoLonger(text[1..], rest[0]);
        if line in rest[1..] {
          LineIsNoLonger(text[1..], line);
        }
      }
    }
  }

  // Recognising the wanted line
  // ---------------------------------------------------------------------------

  /** Will the lookup recognise the line this op writes? Can be told before anything is written. */
  ghost predicate Recognisable(op: MountOp) {
    NEWLINE !in FstabLine(op) && IsEntry(FstabLine(op), op.dest)
  }

  lemma {:induction false} FieldsOfWord(w: string, rest: string)
    requires w != "" && HasNoSpace(w)
    ensures Fields(w + " " + rest) == [w] + Fields(rest)
  {
    var s := w + " " + rest;
    WordOf(w, " " + rest);
    assert s == w + (" " + rest);
    assert TrimLeft(s) == s;
    assert s[|w|..] == " " + rest;
    SkipsSpace(rest);
  }

  lemma SkipsSpace(rest: string)
    ensures Fields(" " + rest) == Fields(rest)
  {
    assert (" " + rest)[1..] == rest;
    assert TrimLeft(" " + rest) == TrimLeft(rest);
  }

  lemma {:induction false} WordOf(w: string, rest: string)
    requires HasNoSpace(w) && (rest == "" || IsSpace(rest[0]))
    ensures Word(w + rest) == w
    decreases |w|
  {
    if w == "" {
      assert w + rest == rest;
    } else {
      assert (w + rest)[1..] == w[1..] + rest;
      assert HasNoSpace(w[1..]);
      WordOf(w[1..], rest);
    }
  }

  /** The fields of a text: skip white space, take the run up to the next white space, and go on there. */
  lemma {:induction false} FieldsFrom(blank: string, w: string, rest: string)
    requires (forall c :: c in blank ==> IsSpace(c)) && w != "" && HasNoSpace(w)
    requires rest == "" || IsSpace(rest[0])
    ensures Fields(blank + w + rest) == [w] + Fields(rest)
    decreases |blank|
  {
    hide Fields, HasNoSpace, IsSpace;
    var s := blank + w + rest;
    if blank == "" {
      assert s == w + rest;
      FieldsHead(w, rest);
    } else {
      assert forall c :: c in blank[1..] ==> c in blank;
      FieldsFrom(blank[1..], w, rest);
      assert s[0] == blank[0] && blank[0] in blank && s[1..] == blank[1..] + w + rest;
      FieldsSkip(s);
    }
  }

  lemma FieldsHead(w: string, rest: string)
    requires w != "" && HasNoSpace(w) && (rest == "" || IsSpace(rest[0]))
    ensures Fields(w + rest) == [w] + Fields(rest)
  {
    WordOf(w, rest);
    FirstIsNoSpace(w);
    assert (w + rest)[0] == w[0] && (w + rest)[|w|..] == rest;
  }

  lemma FieldsSkip(s: string)
    requires s != "" && IsSpace(s[0])
    ensures Fields(s) == Fields(s[1..])
  {
    assert TrimLeft(s) == TrimLeft(s[1..]);
  }

  lemma {:induction false} NoFields(blank: string)
    requires forall c :: c in blank ==> IsSpace(c)
    ensures Fields(blank) == []
    decreases |blank|
  {
    if blank != "" {
      assert blank[0] in blank && forall c :: c in blank[1..] ==> c in blank;
      NoFields(blank[1..]);
      FieldsSkip(blank);
    }
  }

  /** Trimming takes away exactly the white space at both ends. */
  lemma {:induction false} TrimsBothEnds(a: string, t: string, b: string)
    requires (forall c :: c in a ==> IsSpace(c)) && (forall c :: c in b ==> IsSpace(c))
    requires t != "" ==> !IsSpace(t[0]) && !IsSpace(t[|t| - 1])
    requires t == "" ==> b == ""
    ensures TrimSpace(a + t + b) == t
    decreases |a| + |b|
  {
    var s := a + t + b;
    if a != "" {
      assert a[0] in a && s[0] == a[0] && s[1..] == a[1..] + t + b;
      TrimsBothEnds(a[1..], t, b);
      assert TrimLeft(s) == TrimLeft(s[1..]);
    } else if b != "" {
      var last := |b| - 1;
      assert b[last] in b && s[|s| - 1] == b[last] && s[..|s| - 1] == a + t + b[..last];
      TrimsBothEnds(a, t, b[..last]);
      assert s[0] == t[0] && s[..|s| - 1][0] == t[0];
      assert TrimLeft(s) == s && TrimLeft(s[..|s| - 1]) == s[..|s| - 1];
    } else {
      assert s == t;
    }
  }

  /** The written line has the six fields of fstab(5), in their order. */
  lemma FieldsOfLine(op: MountOp)
    requires op.src != "" && op.dest != "" && op.fstype != "" && op.opts != ""
    requires HasNoSpace(op.src) && HasNoSpace(op.dest) && HasNoSpace(op.fstype) && HasNoSpace(op.opts)
    ensures Fields(FstabLine(op)) == [op.src, op.dest, op.fstype, op.opts, "0", "0"]
  {
    hide Fields, HasNoSpace;
    var tail := op.opts + " " + "0 0";
    assert FstabLine(op) == op.src + " " + (op.dest + " " + (op.fstype + " " + tail));
    FieldsOfWord(op.src, op.dest + " " + (op.fstype + " " + tail));
    FieldsOfWord(op.dest, op.fstype + " " + tail);
    FieldsOfWord(op.fstype, tail);
    FieldsOfWord(op.opts, "0 0");
    ZeroFields();
  }

  lemma ZeroFields()
    ensures Fields("0 0") == ["0", "0"]
  {
    assert HasNoSpace("0");
    assert "0 0" == "" + "0" + " 0" && " 0" == " " + "0" + "";
    FieldsFrom("", "0", " 0");
    FieldsFrom(" ", "0", "");
    NoFields("");
  }

  lemma NewlinesOf(op: MountOp)
    requires HasNoSpace(op.src) && HasNoSpace(op.dest) && HasNoSpace(op.fstype)
    ensures NEWLINE in FstabLine(op) <==> NEWLINE in op.opts
  {
    assert IsSpace(NEWLINE);
  }

  lemma FirstIsNoSpace(s: string)
    requires s != "" && HasNoSpace(s)
    ensures !IsSpace(s[0])
  {
    assert s[0] in s;
  }

  /** For a source and a mount point without white space, the one way to fail is a source that looks like
      a comment, or options that break the line. */
  lemma RecognisableIff(op: MountOp)
    requires op.src != "" && op.dest != "" && HasNoSpace(op.src) && HasNoSpace(op.dest) && HasNoSpace(op.fstype)
    ensures Recognisable(op) <==> op.src[0] != '#' && NEWLINE !in op.opts
    ensures TrimSpace(FstabLine(op)) == FstabLine(op)
  {
    hide Fields, Word, HasNoSpace;
    var line := FstabLine(op);
    var rest := op.fstype + " " + op.opts + " 0 0";
    assert line == op.src + " " + (op.dest + " " + rest);
    FirstIsNoSpace(op.src);
    assert line[0] == op.src[0] && line[|line| - 1] == '0';
    assert TrimLeft(line) == line && TrimRight(line) == line;
    FieldsOfWord(op.src, op.dest + " " + rest);
    FieldsOfWord(op.dest, rest);
    NewlinesOf(op);
  }

  // What ensuring does to the text
  // ---------------------------------------------------------------------------

  lemma EnsuredMembers(text: string, op: MountOp, line: string)
    requires line in EnsuredLines(text, op)
    ensures line == FstabLine(op) || (!IsEntry(line, op.dest) && NEWLINE !in line)
  {
    var lines := Split(text);
    SplitHasNoNewline(text);
    assert !IsEntry("", op.dest);
    if HasEntry(lines, op.dest) {
      var i :| 0 <= i < |lines| && Replaced(lines, op)[i] == line;
      assert lines[i] in lines;
    }
  }

  lemma WantedIsThere(text: string, op: MountOp)
    ensures FstabLine(op) in EnsuredLines(text, op)
  {
    var lines := Split(text);
    if HasEntry(lines, op.dest) {
      var line :| line in lines && IsEntry(line, op.dest);
      var i :| 0 <= i < |lines| && lines[i] == line;
      assert Replaced(lines, op)[i] == FstabLine(op);
    }
  }

  lemma LinesOfEnsured(text: string, op: MountOp)
    requires NEWLINE !in FstabLine(op)
    ensures Split(Ensured(text, op)) == EnsuredLines(text, op)
  {
    WantedIsThere(text, op);
    forall line | line in EnsuredLines(text, op) ensures NEWLINE !in line {
      EnsuredMembers(text, op, line);
    }
    SplitJoin(EnsuredLines(text, op));
  }

  lemma {:induction false} FirstEntryIs(lines: seq<string>, dest: string, line: string)
    requires forall x :: x in lines && IsEntry(x, dest) ==> x == line
    ensures FirstEntry(lines, dest) == if line in lines && IsEntry(line, dest) then Some(TrimSpace(line)) else None
    decreases |lines|
  {
    if lines != [] && !IsEntry(lines[0], dest) {
      assert forall x :: x in lines[1..] ==> x in lines;
      FirstEntryIs(lines[1..], dest, line);
      assert line in lines <==> line == lines[0] || line in lines[1..];
    }
  }

  lemma {:induction false} FirstEntryComesFrom(lines: seq<string>, dest: string) returns (line: string)
    requires FirstEntry(lines, dest).Some?
    ensures line in lines && IsEntry(line, dest) && FirstEntry(lines, dest) == Some(TrimSpace(line))
    decreases |lines|
  {
    if IsEntry(lines[0], dest) {
      line := lines[0];
    } else {
      line := FirstEntryComesFrom(lines[1..], dest);
    }
  }

  lemma {:induction false} TrimKeepsOut(s: string, c: char)
    requires c !in s
    ensures c !in TrimLeft(s) && c !in TrimRight(s)
    decreases |s|
  {
    if s != "" {
      assert c !in s[1..] && c !in s[..|s| - 1];
      TrimKeepsOut(s[1..], c);
      TrimKeepsOut(s[..|s| - 1], c);
    }
  }

  /** The law of the op: after ensuring, the lookup that the check makes answers with the wanted line. It
      holds for every file exactly when the line is recognisable and has no white space around it. */
  lemma EnsureSatisfiesCheck(text: string, op: MountOp)
    ensures Found(Ensured(text, op), op.dest) == Some(FstabLine(op)) <==>
      Recognisable(op) && TrimSpace(FstabLine(op)) == FstabLine(op)
  {
    var line, out := FstabLine(op), Ensured(text, op);
    forall x | x in EnsuredLines(text, op) && IsEntry(x, op.dest) ensures x == line {
      EnsuredMembers(text, op, x);
    }
    WantedIsThere(text, op);
    if NEWLINE !in line {
      LinesOfEnsured(text, op);
      FirstEntryIs(EnsuredLines(text, op), op.dest, line);
    } else if Found(out, op.dest) == Some(line) {
      var x := FirstEntryComesFrom(Split(out), op.dest);
      SplitHasNoNewline(out);
      TrimKeepsOut(x, NEWLINE);
      TrimKeepsOut(TrimLeft(x), NEWLINE);
    }
  }

  /** For a source and a mount point without white space, in terms of what the user wrote. */
  lemma ApplyThenCheck(text: string, op: MountOp)
    requires op.src != "" && op.dest != "" && HasNoSpace(op.src) && HasNoSpace(op.dest) && HasNoSpace(op.fstype)
    ensures Found(Ensured(text, op), op.dest) == Some(FstabLine(op)) <==> op.src[0] != '#' && NEWLINE !in op.opts
  {
    hide *;
    RecognisableIff(op);
    EnsureSatisfiesCheck(text, op);
  }

  // Running twice
  // ---------------------------------------------------------------------------

  lemma {:induction false} ReplacingGrows(lines: seq<string>, op: MountOp)
    requires forall line :: line in lines && IsEntry(line, op.dest) ==> |line| < |FstabLine(op)|
    ensures |Join(lines)| <= |Join(Replaced(lines, op))|
    ensures HasEntry(lines, op.dest) ==> |Join(lines)| < |Join(Replaced(lines, op))|
    decreases |lines|
  {
    hide IsEntry, FstabLine;
    if lines != [] {
      var rest, out := lines[1..], Replaced(lines, op);
      assert lines[0] in lines;
      assert forall line :: line in rest ==> line in lines;
      assert forall line :: line in lines <==> line == lines[0] || line in rest;
      ReplacingGrows(rest, op);
      assert out[1..] == Replaced(rest, op);
    }
  }

  /** If every entry is shorter than the wanted line, ensuring makes the text longer. */
  lemma EnsuringGrows(text: string, op: MountOp)
    requires forall line :: line in Split(text) && IsEntry(line, op.dest) ==> |line| < |FstabLine(op)|
    ensures |text| < |Ensured(text, op)|
  {
    var lines := Split(text);
    JoinSplit(text);
    if HasEntry(lines, op.dest) {
      ReplacingGrows(lines, op);
    } else {
      var more := (if HasFinalNewline(text) then [] else [""]) + [FstabLine(op)];
      assert lines + (if HasFinalNewline(text) then [] else [""]) + [FstabLine(op)] == lines + more;
      JoinAppend(lines, more);
    }
  }

  lemma EntryOfEnsured(text: string, op: MountOp, line: string)
    requires line in Split(Ensured(text, op)) && IsEntry(line, op.dest)
    ensures line in Split(FstabLine(op))
  {
    WantedIsThere(text, op);
    var piece := SplitJoinMember(EnsuredLines(text, op), line);
    EnsuredMembers(text, op, piece);
    if piece != FstabLine(op) {
      SplitLine(piece);
    }
  }

  /** A second run leaves the text alone exactly when the line is recognisable; otherwise every run makes
      the file longer. */
  lemma EnsureIsIdempotent(text: string, op: MountOp)
    ensures Ensured(Ensured(text, op), op) == Ensured(text, op) <==> Recognisable(op)
    ensures !Recognisable(op) ==> |Ensured(text, op)| < |Ensured(Ensured(text, op), op)|
  {
    var line, out := FstabLine(op), Ensured(text, op);
    if Recognisable(op) {
      LinesOfEnsured(text, op);
      WantedIsThere(text, op);
      var lines := EnsuredLines(text, op);
      forall i | 0 <= i < |lines| ensures Replaced(lines, op)[i] == lines[i] {
        EnsuredMembers(text, op, lines[i]);
      }
      assert Replaced(lines, op) == lines;
    } else {
      forall x | x in Split(out) && IsEntry(x, op.dest) ensures |x| < |line| {
        EntryOfEnsured(text, op, x);
        LineIsNoLonger(line, x);
        if NEWLINE !in line {
          SplitLine(line);
        }
      }
      EnsuringGrows(out, op);
    }
  }

  lemma UnrecognisedIsNeverFound(text: string, op: MountOp)
    requires NEWLINE !in FstabLine(op) && !IsEntry(FstabLine(op), op.dest)
    ensures Found(Ensured(text, op), op.dest) == None
  {
    LinesOfEnsured(text, op);
    forall x | x in EnsuredLines(text, op) ensures !IsEntry(x, op.dest) {
      EnsuredMembers(text, op, x);
    }
    FirstEntryIs(EnsuredLines(text, op), op.dest, FstabLine(op));
  }

  /** A source that starts with # is written as a comment: it is never found, and every run adds it again. */
  lemma CommentSourceIsNeverFound(text: string, op: MountOp)
    requires op == MountOp("#1", "/m", "ext4", "ro")
    ensures Found(Ensured(text, op), op.dest) == None
    ensures |Ensured(text, op)| < |Ensured(Ensured(text, op), op)|
  {
    hide Found, Ensured, Split, Fields, TrimLeft, TrimRight, IsEntry;
    RecognisableIff(op);
    assert NEWLINE !in FstabLine(op);
    EnsureIsIdempotent(text, op);
    UnrecognisedIsNeverFound(text, op);
  }

  // What is left alone
  // ---------------------------------------------------------------------------

  lemma {:induction false} OthersConcat(a: seq<string>, b: seq<string>, dest: string)
    ensures Others(a + b, dest) == Others(a, dest) + Others(b, dest)
    decreases |a|
  {
    if a == [] {
      assert a + b == b;
    } else {
      assert (a + b)[1..] == a[1..] + b;
      OthersConcat(a[1..], b, dest);
    }
  }

  lemma {:induction false} OthersReplaced(lines: seq<string>, op: MountOp)
    requires IsEntry(FstabLine(op), op.dest)
    ensures Others(Replaced(lines, op), op.dest) == Others(lines, op.dest)
    decreases |lines|
  {
    if lines != [] {
      OthersReplaced(lines[1..], op);
      assert Replaced(lines, op)[1..] == Replaced(lines[1..], op);
    }
  }

  /** All other lines stay verbatim and in order; a new entry is preceded by one blank line. */
  lemma EnsureKeepsOthers(text: string, op: MountOp)
    requires Recognisable(op)
    ensures Others(Split(Ensured(text, op)), op.dest) == Others(Split(text), op.dest) +
      (if HasEntry(Split(text), op.dest) || HasFinalNewline(text) then [] else [""])
  {
    var lines := Split(text);
    LinesOfEnsured(text, op);
    assert !IsEntry("", op.dest);
    if HasEntry(lines, op.dest) {
      OthersReplaced(lines, op);
    } else {
      var pad: seq<string> := if HasFinalNewline(text) then [] else [""];
      OthersConcat(lines + pad, [FstabLine(op)], op.dest);
      OthersConcat(lines, pad, op.dest);
    }
  }

  lemma {:induction false} OthersMembers(lines: seq<string>, dest: string)
    ensures forall line :: line in Others(lines, dest) ==> line in lines && !IsEntry(line, dest)
    decreases |lines|
  {
    if lines != [] {
      OthersMembers(lines[1..], dest);
    }
  }

  lemma {:induction false} NothingToDrop(lines: seq<string>, dest: string)
    requires !HasEntry(lines, dest)
    ensures Others(lines, dest) == lines
    decreases |lines|
  {
    if lines != [] {
      assert lines[0] in lines && forall line :: line in lines[1..] ==> line in lines;
      NothingToDrop(lines[1..], dest);
    }
  }

  lemma LinesOfRemoved(text: string, dest: string)
    ensures Split(Removed(text, dest)) == if Others(Split(text), dest) == [] then [""] else Others(Split(text), dest)
  {
    var left := Others(Split(text), dest);
    OthersMembers(Split(text), dest);
    SplitHasNoNewline(text);
    if left != [] {
      SplitJoin(left);
    }
  }

  /** After removing, nothing is found, all other lines are there in order, and removing again changes nothing. */
  lemma RemoveSatisfiesCheck(text: string, dest: string)
    ensures Found(Removed(text, dest), dest) == None
    ensures Others(Split(text), dest) != [] ==> Split(Removed(text, dest)) == Others(Split(text), dest)
    ensures Removed(Removed(text, dest), dest) == Removed(text, dest)
  {
    var left := Others(Split(text), dest);
    OthersMembers(Split(text), dest);
    LinesOfRemoved(text, dest);
    assert !IsEntry("", dest);
    FirstEntryIs(Split(Removed(text, dest)), dest, "");
    NothingToDrop(Split(Removed(text, dest)), dest);
    JoinSplit(Removed(text, dest));
  }

  /** Removing undoes ensuring: what is left is what removing alone would have left, except that a text
      without an entry that did not end in a newline ends in one now. */
  lemma RemoveUndoesEnsure(text: string, op: MountOp)
    requires Recognisable(op)
    ensures Removed(Ensured(text, op), op.dest) ==
      Removed(text, op.dest) + if HasEntry(Split(text), op.dest) || HasFinalNewline(text) then "" else [NEWLINE]
  {
    hide Ensured, IsEntry, Split, FstabLine, HasEntry, HasFinalNewline, Recognisable;
    EnsureKeepsOthers(text, op);
    if !(HasEntry(Split(text), op.dest) || HasFinalNewline(text)) {
      NothingToDrop(Split(text), op.dest);
      JoinAppend(Split(text), [""]);
    } else {
      assert Others(Split(text), op.dest) + [] == Others(Split(text), op.dest);
    }
  }

  // The editor
  // ---------------------------------------------------------------------------

  /** The target's file; None when reading it fails. */
  class Target {
    var fstab: Option<string>

    constructor (fstab: Option<string>)
      ensures this.fstab == fstab
    {
      this.fstab := fstab;
    }

    method FindFstabEntry(op: MountOp) returns (entry: Option<string>)
      ensures entry == if fstab.Some? then Found(fstab.value, op.dest) else None
    {
      if fstab.None? {
        return None;
      }
      var lines := Split(fstab.value);
      for i := 0 to |lines|
        invariant FirstEntry(lines, op.dest) == FirstEntry(lines[i..], op.dest)
      {
        var line := TrimSpace(lines[i]);
        if line != "" && line[0] != '#' {
          var fields := Fields(line);
          if |fields| >= 2 && fields[1] == op.dest {
            return Some(line);
          }
        }
      }
      return None;
    }

    method EnsureFstab(op: MountOp) returns (failed: bool)
      modifies this
      ensures failed <==> old(fstab).None?
      ensures fstab == if failed then None else Some(Ensured(old(fstab).value, op))
    {
      if fstab.None? {
        return true;
      }
      var content, desired := fstab.value, FstabLine(op);
      var split := Split(content);
      var lines: seq<string> := [];
      var found := false;
      for i := 0 to |split|
        invariant lines == Replaced(split[..i], op)
        invariant found <==> HasEntry(split[..i], op.dest)
        invariant fstab == old(fstab)
      {
        assert split[..i + 1] == split[..i] + [split[i]];
        var trimmed := TrimSpace(split[i]);
        var mine := false;
        if trimmed != "" && trimmed[0] != '#' {
          var fields := Fields(trimmed);
          mine := |fields| >= 2 && fields[1] == op.dest;
        }
        assert mine <==> IsEntry(split[i], op.dest);
        if mine {
          lines := lines + [desired];
          found := true;
        } else {
          lines := lines + [split[i]];
        }
      }
      assert split[..|split|] == split;
      if !found {
        NothingToReplace(split, op);
        EndsLineIff(content);
        if !EndsLine(content) {
          lines := lines + [""];
        }
        lines := lines + [desired];
      }
      assert lines == EnsuredLines(content, op);
      fstab := Some(Join(lines));
      failed := false;
    }

    method RemoveFstab(op: MountOp) returns (failed: bool)
      modifies this
      ensures failed <==> old(fstab).None?
      ensures fstab == if failed then None else Some(Removed(old(fstab).value, op.dest))
    {
      if fstab.None? {
        return true;
      }
      var split := Split(fstab.value);
      var lines: seq<string> := [];
      for i := 0 to |split|
        invariant lines == Others(split[..i], op.dest)
        invariant fstab == old(fstab)
      {
        assert split[..i + 1] == split[..i] + [split[i]];
        OthersConcat(split[..i], [split[i]], op.dest);
        var trimmed := TrimSpace(split[i]);
        var mine := false;
        if trimmed != "" && trimmed[0] != '#' {
          var fields := Fields(trimmed);
          mine := |fields| >= 2 && fields[1] == op.dest;
        }
        assert mine <==> IsEntry(split[i], op.dest);
        if !mine {
          lines := lines + [split[i]];
        }
      }
      assert split[..|split|] == split;
      fstab := Some(Join(lines));
      failed := false;
    }
  }

  lemma NothingToReplace(lines: seq<string>, op: MountOp)
    requires !HasEntry(lines, op.dest)
    ensures Replaced(lines, op) == lines
  {
    forall i | 0 <= i < |lines| ensures Replaced(lines, op)[i] == lines[i] {
      assert lines[i] in lines;
    }
  }
}
