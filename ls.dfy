/** `ls` (src/usr/coreutils/ls.rs): read the flags, list a directory's entries that
    are not hidden, sorted by name, in one padded field each, inline with a line
    wrap or one per line in long format. The file system and the clock are
    parameters; colour codes are not part of the output modelled here. */
module Ls {
  import opened RustCore

  /** Spaces after the longest name in the inline listing (line 18). */
  const INLINE_PAD: nat := 1

  /** The screen width the inline listing assumes (line 68). */
  const WIDTH: nat := 80

  /** What `syscall::info` and `fs::read_dir` tell about one file. */
  datatype FileInfo = FileInfo(name: string, size: nat, isDir: bool, time: nat)

  // ---------------------------------------------------------------------------
  // Arguments (lines 21-34)
  // ---------------------------------------------------------------------------

  datatype LsOptions = LsOptions(hideDotFiles: bool, longFormat: bool, path: string)

  predicate IsFlag(a: string) { a == "-a" || a == "-l" }

  /** One argument of the loop: `-a`, `-l`, or else the path. */
  function ApplyArg(o: LsOptions, a: string): LsOptions {
    if a == "-a" then o.(hideDotFiles := false)
    else if a == "-l" then o.(longFormat := true)
    else o.(path := a)
  }

  /** The options after arguments 1 to n - 1, starting from the current directory. */
  function OptionsAfter(args: seq<string>, n: nat, cwd: string): LsOptions
    requires n <= |args|
  {
    if n <= 1 then LsOptions(true, false, cwd) else ApplyArg(OptionsAfter(args, n - 1, cwd), args[n - 1])
  }

  function OptionsOf(args: seq<string>, cwd: string): LsOptions {
    OptionsAfter(args, |args|, cwd)
  }

  /** The argument loop of `main`. */
  method ParseLsArgs(args: seq<string>, cwd: string) returns (opts: LsOptions)
    ensures opts == OptionsOf(args, cwd)
  {
    var path, hiding, long := cwd, true, false;
    var n := |args|;
    var i := 1;
    while i < n
      invariant 1 <= i
      invariant n > 0 ==> i <= n && LsOptions(hiding, long, path) == OptionsAfter(args, i, cwd)
      invariant n == 0 ==> LsOptions(hiding, long, path) == OptionsAfter(args, 0, cwd)
      decreases n - i
    {
      match args[i] {
        case "-a" => hiding := false;
        case "-l" => long := true;
        case _ => path := args[i];
      }
      i := i + 1;
    }
    opts := LsOptions(hiding, long, path);
  }

  lemma {:induction false} HidingAfter(args: seq<string>, n: nat, cwd: string)
    requires n <= |args|
    ensures OptionsAfter(args, n, cwd).hideDotFiles <==> forall k :: 1 <= k < n ==> args[k] != "-a"
  {
    if n > 1 {
      HidingAfter(args, n - 1, cwd);
    }
  }

  lemma {:induction false} LongAfter(args: seq<string>, n: nat, cwd: string)
    requires n <= |args|
    ensures OptionsAfter(args, n, cwd).longFormat <==> exists k :: 1 <= k < n && args[k] == "-l"
  {
    if n > 1 {
      LongAfter(args, n - 1, cwd);
    }
  }

  /** The path is the last argument that is not a flag. */
  predicate LastPathAt(args: seq<string>, n: nat, k: nat)
    requires n <= |args|
  {
    1 <= k < n && !IsFlag(args[k]) && forall j :: k < j < n ==> IsFlag(args[j])
  }

  lemma {:induction false} PathAfter(args: seq<string>, n: nat, cwd: string)
    requires n <= |args|
    ensures (forall k :: 1 <= k < n ==> IsFlag(args[k])) ==> OptionsAfter(args, n, cwd).path == cwd
    ensures forall k: nat :: LastPathAt(args, n, k) ==> OptionsAfter(args, n, cwd).path == args[k]
  {
    if n > 1 {
      PathAfter(args, n - 1, cwd);
      forall k: nat | LastPathAt(args, n, k)
        ensures OptionsAfter(args, n, cwd).path == args[k]
      {
        if k < n - 1 {
          assert LastPathAt(args, n - 1, k);
        }
      }
    }
  }

  /** `-a` anywhere shows the dot files, `-l` anywhere asks for long format, and the
      path is the last argument that is neither, or the current directory. */
  lemma OptionsMeaning(args: seq<string>, cwd: string)
    ensures OptionsOf(args, cwd).hideDotFiles <==> forall k :: 1 <= k < |args| ==> args[k] != "-a"
    ensures OptionsOf(args, cwd).longFormat <==> exists k :: 1 <= k < |args| && args[k] == "-l"
    ensures (forall k :: 1 <= k < |args| ==> IsFlag(args[k])) ==> OptionsOf(args, cwd).path == cwd
    ensures forall k: nat :: LastPathAt(args, |args|, k) ==> OptionsOf(args, cwd).path == args[k]
  {
    HidingAfter(args, |args|, cwd);
    LongAfter(args, |args|, cwd);
    PathAfter(args, |args|, cwd);
  }

  /** Flags are matched whole: `-la` is taken as a path. */
  lemma CombinedFlagsArePath(cwd: string)
    ensures OptionsOf(["ls", "-la"], cwd) == LsOptions(true, false, "-la")
    ensures OptionsOf(["ls", "a", "-l", "b"], cwd) == LsOptions(true, true, "b")
  {
    var one := ["ls", "-la"];
    assert one[1] != "-a" && one[1] != "-l";
    assert OptionsAfter(one, 2, cwd) == ApplyArg(OptionsAfter(one, 1, cwd), "-la");
    var three := ["ls", "a", "-l", "b"];
    assert three[1] == "a" && three[2] == "-l" && three[3] == "b";
    assert OptionsAfter(three, 2, cwd) == LsOptions(true, false, "a");
    assert OptionsAfter(three, 3, cwd) == LsOptions(true, true, "a");
    assert OptionsAfter(three, 4, cwd) == ApplyArg(OptionsAfter(three, 3, cwd), "b");
  }

  // ---------------------------------------------------------------------------
  // The dot-file filter (lines 39-41)
  // ---------------------------------------------------------------------------

  predicate IsDotFile(name: string) { |name| > 0 && name[0] == '.' }

  /** The filter's test: `!(name.starts_with('.') && hide_dot_files)`. */
  predicate Shown(f: FileInfo, hiding: bool) { !(IsDotFile(f.name) && hiding) }

  /** The entries that pass the filter, in their order. */
  function Visible(entries: seq<FileInfo>, hiding: bool): (r: seq<FileInfo>)
    ensures |r| <= |entries|
    ensures forall f :: f in r <==> f in entries && Shown(f, hiding)
    ensures !hiding ==> r == entries
    decreases |entries|
  {
    if |entries| == 0 then []
    else (if Shown(entries[0], hiding) then [entries[0]] else []) + Visible(entries[1..], hiding)
  }

  /** The filter keeps the order: it works entry by entry. */
  lemma {:induction false} VisibleAppend(a: seq<FileInfo>, b: seq<FileInfo>, hiding: bool)
    ensures Visible(a + b, hiding) == Visible(a, hiding) + Visible(b, hiding)
    decreases |a|
  {
    if |a| == 0 {
      assert a + b == b;
    } else {
      assert (a + b)[0] == a[0] && (a + b)[1..] == a[1..] + b;
      VisibleAppend(a[1..], b, hiding);
    }
  }

  /** With hiding on, an entry is kept exactly when its name does not start with a dot,
      and as many times as it occurs. */
  lemma {:induction false} VisibleCounts(entries: seq<FileInfo>, hiding: bool, f: FileInfo)
    ensures multiset(Visible(entries, hiding))[f] == if Shown(f, hiding) then multiset(entries)[f] else 0
    decreases |entries|
  {
    if |entries| > 0 {
      var e, rest := entries[0], entries[1..];
      VisibleCounts(rest, hiding, f);
      assert entries == [e] + rest;
      var head := if Shown(e, hiding) then [e] else [];
      assert multiset(Visible(entries, hiding)) == multiset(head) + multiset(Visible(rest, hiding));
    }
  }

  // ---------------------------------------------------------------------------
  // Sort by name (line 44)
  // ---------------------------------------------------------------------------

  /** The order of `str`: lexicographic, a prefix first. Rust compares the UTF-8 bytes,
      which orders characters as their code points do. */
  predicate NameLe(a: string, b: string)
    decreases |a|
  {
    |a| == 0 || (|b| > 0 && (a[0] < b[0] || (a[0] == b[0] && NameLe(a[1..], b[1..]))))
  }

  predicate NameLt(a: string, b: string) { !NameLe(b, a) }

  lemma {:induction false} NameLeTotal(a: string, b: string)
    ensures NameLe(a, b) || NameLe(b, a)
    decreases |a|
  {
    if |a| > 0 && |b| > 0 && a[0] == b[0] {
      NameLeTotal(a[1..], b[1..]);
    }
  }

  lemma {:induction false} NameLeTrans(a: string, b: string, c: string)
    requires NameLe(a, b) && NameLe(b, c)
    ensures NameLe(a, c)
    decreases |a|
  {
    if |a| > 0 && a[0] == b[0] && b[0] == c[0] {
      NameLeTrans(a[1..], b[1..], c[1..]);
    }
  }

  lemma {:induction false} NameLeAntisymmetric(a: string, b: string)
    requires NameLe(a, b) && NameLe(b, a)
    ensures a == b
    decreases |a|
  {
    if |a| > 0 {
      NameLeAntisymmetric(a[1..], b[1..]);
      assert a == [a[0]] + a[1..] && b == [b[0]] + b[1..];
    }
  }

  predicate SortedByName(files: seq<FileInfo>) {
    forall p, q :: 0 <= p < q < |files| ==> NameLe(files[p].name, files[q].name)
  }

  /** `files.sort_by_key(|f| f.name())`, in place. The library's algorithm is not part of
      this model; an insertion sort stands for it and meets the same contract. */
  method SortByName(a: array<FileInfo>)
    modifies a
    ensures SortedByName(a[..])
    ensures multiset(a[..]) == multiset(old(a[..]))
  {
    var i := 0;
    while i < a.Length
      invariant 0 <= i <= a.Length
      invariant forall p, q :: 0 <= p < q < i ==> NameLe(a[p].name, a[q].name)
      invariant multiset(a[..]) == multiset(old(a[..]))
    {
      var j := i;
      while j > 0 && NameLt(a[j].name, a[j - 1].name)
        invariant 0 <= j <= i
        invariant forall p, q :: 0 <= p < q <= i && p != j && q != j ==> NameLe(a[p].name, a[q].name)
        invariant forall q :: j < q <= i ==> NameLe(a[j].name, a[q].name)
        invariant multiset(a[..]) == multiset(old(a[..]))
        decreases j
      {
        NameLeTotal(a[j].name, a[j - 1].name);
        a[j - 1], a[j] := a[j], a[j - 1];
        j := j - 1;
      }
      if j > 0 {
        NameLeTotal(a[j].name, a[j - 1].name);
        forall p | 0 <= p < j - 1
          ensures NameLe(a[p].name, a[j].name)
        {
          NameLeTrans(a[p].name, a[j - 1].name, a[j].name);
        }
      }
      i := i + 1;
    }
  }

  // ---------------------------------------------------------------------------
  // Field widths (lines 53-63, 94-119)
  // ---------------------------------------------------------------------------

  /** Bytes of a character in UTF-8. */
  function Utf8Width(c: char): (r: nat)
    ensures 1 <= r <= 4
    ensures r == 1 <==> c as int < 0x80
  {
    if c as int < 0x80 then 1 else if c as int < 0x800 then 2 else if c as int < 0x10000 then 3 else 4
  }

  /** `str::len`: the length of the name in bytes, at least its number of characters. */
  function ByteLen(s: string): (r: nat)
    ensures r >= |s|
    ensures (forall k :: 0 <= k < |s| ==> s[k] as int < 0x80) ==> r == |s|
    ensures (exists k :: 0 <= k < |s| && s[k] as int >= 0x80) ==> r > |s|
    decreases |s|
  {
    if |s| == 0 then 0 else Utf8Width(s[0]) + ByteLen(s[1..])
  }

  function NameWidth(f: FileInfo): nat { ByteLen(f.name) }

  /** `file.size().to_string().len()` */
  function SizeWidth(f: FileInfo): nat { |Decimal(f.size)| }

  /** `files.iter().fold(0, |m, f| max(m, width(f)))`. */
  function MaxOf(files: seq<FileInfo>, width: FileInfo -> nat): (r: nat)
    ensures forall k :: 0 <= k < |files| ==> width(files[k]) <= r
    ensures |files| == 0 ==> r == 0
    ensures |files| > 0 ==> exists k :: 0 <= k < |files| && width(files[k]) == r
    decreases |files|
  {
    if |files| == 0 then 0
    else
      var m := MaxOf(files[..|files| - 1], width);
      var w := width(files[|files| - 1]);
      if m < w then w else m
  }

  /** `name_len` */
  function MaxNameLen(files: seq<FileInfo>): nat { MaxOf(files, NameWidth) }

  /** `size_len` */
  function MaxSizeLen(files: seq<FileInfo>): nat { MaxOf(files, SizeWidth) }

  function Spaces(n: nat): (r: string)
    ensures |r| == n && forall k :: 0 <= k < n ==> r[k] == ' '
  {
    seq(n, _ => ' ')
  }

  /** `{:<width$}`: the text followed by spaces up to `width` characters. */
  function PadRight(s: string, width: nat): (r: string)
    ensures |r| == if |s| < width then width else |s|
    ensures r[..|s|] == s
    ensures forall k :: |s| <= k < |r| ==> r[k] == ' '
  {
    if |s| < width then s + Spaces(width - |s|) else s
  }

  /** `{:>width$}`: spaces up to `width` characters, then the text. */
  function PadLeft(s: string, width: nat): (r: string)
    ensures |r| == if |s| < width then width else |s|
    ensures r[|r| - |s|..] == s
    ensures forall k :: 0 <= k < |r| - |s| ==> r[k] == ' '
  {
    if |s| < width then Spaces(width - |s|) + s else s
  }

  /** What is printed, piece by piece: a piece of one line, or a line break. */
  datatype Piece = Text(s: string) | NewLine

  /** `print_file`: in long format the size right-aligned, the time and a space, then
      the name left-aligned in `name_len + INLINE_PAD` columns, then a line break. */
  function FileField(f: FileInfo, nameLen: nat, sizeLen: nat, long: bool, formatTime: nat -> string): (r: seq<Piece>)
    ensures |r| == if long then 3 else 1
    ensures forall k :: 0 <= k < |r| - 1 ==> r[k].Text?
    ensures r[if long then 1 else 0] == Text(PadRight(f.name, nameLen + INLINE_PAD))
    ensures long ==> r[2] == NewLine
  {
    var name := Text(PadRight(f.name, nameLen + INLINE_PAD));
    if long then
      [Text(PadLeft(Decimal(f.size), sizeLen) + " " + formatTime(f.time) + " "), name, NewLine]
    else [name]
  }

  /** A name no longer than `name_len` bytes fills its field exactly: the name, then spaces. */
  lemma FieldWidth(f: FileInfo, nameLen: nat)
    requires ByteLen(f.name) <= nameLen
    ensures var t := PadRight(f.name, nameLen + INLINE_PAD);
      |t| == nameLen + INLINE_PAD && t[..|f.name|] == f.name
      && forall k :: |f.name| <= k < |t| ==> t[k] == ' '
  {
  }

  /** In long format the size ends where its column ends. */
  lemma SizeColumn(f: FileInfo, sizeLen: nat)
    requires SizeWidth(f) <= sizeLen
    ensures var t := PadLeft(Decimal(f.size), sizeLen);
      |t| == sizeLen && t[sizeLen - SizeWidth(f)..] == Decimal(f.size)
  {
  }

  // ---------------------------------------------------------------------------
  // The print loop and its wrap counter (lines 65-77)
  // ---------------------------------------------------------------------------

  /** The width of the last printed line. */
  function Column(ps: seq<Piece>): nat
    decreases |ps|
  {
    if |ps| == 0 then 0
    else
      match ps[|ps| - 1]
      case NewLine => 0
      case Text(s) => Column(ps[..|ps| - 1]) + |s|
  }

  /** The width of the widest printed line. */
  function Widest(ps: seq<Piece>): (r: nat)
    ensures r >= Column(ps)
    decreases |ps|
  {
    if |ps| == 0 then 0
    else
      var w := Widest(ps[..|ps| - 1]);
      if w < Column(ps) then Column(ps) else w
  }

  /** `cur_width` after the test made before one file, and whether a line break is
      printed first, as the code is written: on a break the counter goes back to 0,
      although the file is then printed on the new line. */
  function WrapAsWritten(cur: nat, field: nat): (r: (bool, nat))
    ensures r.0 <==> cur + field > WIDTH
    ensures r.1 <= WIDTH
    ensures !r.0 ==> r.1 == cur + field
  {
    if cur + field > WIDTH then (true, 0) else (false, cur + field)
  }

  /** The wrap test with the counter counting the file printed after a break: the
      counter is always the column the file ends at. */
  function Wrap(cur: nat, field: nat): (r: (bool, nat))
    ensures r.0 <==> cur + field > WIDTH
    ensures r.1 == (if r.0 then 0 else cur) + field
    ensures cur <= WIDTH && field <= WIDTH ==> r.1 <= WIDTH
  {
    if cur + field > WIDTH then (true, field) else (false, cur + field)
  }

  datatype Listed = Listed(pieces: seq<Piece>, cur: nat)

  /** The print loop over the files, with the counter as written (`fixedReset` false)
      or corrected (`fixedReset` true). */
  function ListFiles(files: seq<FileInfo>, nameLen: nat, sizeLen: nat, long: bool,
                     formatTime: nat -> string, fixedReset: bool): Listed
    decreases |files|
  {
    if |files| == 0 then Listed([], 0)
    else
      var prev := ListFiles(files[..|files| - 1], nameLen, sizeLen, long, formatTime, fixedReset);
      var field := FileField(files[|files| - 1], nameLen, sizeLen, long, formatTime);
      if long then Listed(prev.pieces + field, prev.cur)
      else
        var step := if fixedReset then Wrap(prev.cur, nameLen + INLINE_PAD)
                    else WrapAsWritten(prev.cur, nameLen + INLINE_PAD);
        Listed(prev.pieces + (if step.0 then [NewLine] else []) + field, step.1)
  }

  /** The print loop of `main` (lines 65-77). With `fixedReset` false a break sets
      `cur_width` to 0, as the code is written; with `fixedReset` true it sets it to the
      width of the file printed on the new line. */
  method PrintFiles(files: seq<FileInfo>, nameLen: nat, sizeLen: nat, long: bool,
                    formatTime: nat -> string, fixedReset: bool) returns (out: seq<Piece>)
    ensures out == ListFiles(files, nameLen, sizeLen, long, formatTime, fixedReset).pieces
  {
    out := [];
    var cur: nat := 0;
    for k := 0 to |files|
      invariant Listed(out, cur) == ListFiles(files[..k], nameLen, sizeLen, long, formatTime, fixedReset)
    {
      assert files[..k + 1][..k] == files[..k];
      if !long {
        if cur + nameLen + INLINE_PAD > WIDTH {
          out := out + [NewLine];
          cur := if fixedReset then nameLen + INLINE_PAD else 0;
        } else {
          cur := cur + nameLen + INLINE_PAD;
        }
      }
      out := out + FileField(files[k], nameLen, sizeLen, long, formatTime);
    }
    assert files[..|files|] == files;
  }

  ghost predicate NamesFit(files: seq<FileInfo>, nameLen: nat) {
    forall k :: 0 <= k < |files| ==> ByteLen(files[k].name) <= nameLen
  }

  lemma ColumnSnoc(ps: seq<Piece>, p: Piece)
    ensures Column(ps + [p]) == if p.NewLine? then 0 else Column(ps) + |p.s|
    ensures Widest(ps + [p]) == if Widest(ps) < Column(ps + [p]) then Column(ps + [p]) else Widest(ps)
  {
    assert (ps + [p])[..|ps|] == ps;
  }

  /** As written, `cur_width` never exceeds 80. */
  lemma {:induction false} CounterBound(files: seq<FileInfo>, nameLen: nat, sizeLen: nat, long: bool,
                                        formatTime: nat -> string, fixedReset: bool)
    requires fixedReset ==> nameLen + INLINE_PAD <= WIDTH
    ensures ListFiles(files, nameLen, sizeLen, long, formatTime, fixedReset).cur <= WIDTH
    decreases |files|
  {
    if |files| > 0 {
      CounterBound(files[..|files| - 1], nameLen, sizeLen, long, formatTime, fixedReset);
    }
  }

  /** One inline file: the pieces grow by an optional break and the field. */
  lemma InlineStep(ps: seq<Piece>, brk: bool, t: string)
    ensures var qs := ps + (if brk then [NewLine] else []) + [Text(t)];
      Column(qs) == (if brk then 0 else Column(ps)) + |t|
      && Widest(qs) == if Widest(ps) < Column(qs) then Column(qs) else Widest(ps)
  {
    if brk {
      ColumnSnoc(ps, NewLine);
      ColumnSnoc(ps + [NewLine], Text(t));
    } else {
      assert ps + [] == ps;
      ColumnSnoc(ps, Text(t));
    }
  }

  /** The inline listing of one more file, with either counter. */
  lemma InlineFileStep(files: seq<FileInfo>, k: nat, nameLen: nat, sizeLen: nat,
                       formatTime: nat -> string, fixedReset: bool)
    requires k < |files| && ByteLen(files[k].name) <= nameLen
    ensures var w := nameLen + INLINE_PAD;
      var l := ListFiles(files[..k], nameLen, sizeLen, false, formatTime, fixedReset);
      var l' := ListFiles(files[..k + 1], nameLen, sizeLen, false, formatTime, fixedReset);
      var step := if fixedReset then Wrap(l.cur, w) else WrapAsWritten(l.cur, w);
      && l'.cur == step.1
      && Column(l'.pieces) == (if step.0 then 0 else Column(l.pieces)) + w
      && Widest(l'.pieces) == if Widest(l.pieces) < Column(l'.pieces) then Column(l'.pieces) else Widest(l.pieces)
  {
    var w := nameLen + INLINE_PAD;
    assert files[..k + 1][..k] == files[..k];
    var l := ListFiles(files[..k], nameLen, sizeLen, false, formatTime, fixedReset);
    var step := if fixedReset then Wrap(l.cur, w) else WrapAsWritten(l.cur, w);
    FieldWidth(files[k], nameLen);
    InlineStep(l.pieces, step.0, PadRight(files[k].name, w));
  }

  /** The counter, the printed column and the widest line so far. */
  datatype Track = Track(cur: nat, column: nat, widest: nat)

  /** The inline listing reduced to widths: `n` fields of `field` columns each. */
  function InlineTrack(n: nat, field: nat, fixedReset: bool): Track {
    if n == 0 then Track(0, 0, 0)
    else
      var t := InlineTrack(n - 1, field, fixedReset);
      var step := if fixedReset then Wrap(t.cur, field) else WrapAsWritten(t.cur, field);
      var column := (if step.0 then 0 else t.column) + field;
      Track(step.1, column, if t.widest < column then column else t.widest)
  }

  /** A listing whose names fit the field follows the track of its widths. */
  lemma {:induction false} ListingTrack(files: seq<FileInfo>, nameLen: nat, sizeLen: nat,
                                        formatTime: nat -> string, fixedReset: bool)
    requires NamesFit(files, nameLen)
    ensures var l := ListFiles(files, nameLen, sizeLen, false, formatTime, fixedReset);
      Track(l.cur, Column(l.pieces), Widest(l.pieces)) == InlineTrack(|files|, nameLen + INLINE_PAD, fixedReset)
    decreases |files|
  {
    if |files| > 0 {
      var n := |files| - 1;
      var init := files[..n];
      assert NamesFit(init, nameLen) by {
        forall k | 0 <= k < |init| ensures ByteLen(init[k].name) <= nameLen {
          assert init[k] == files[k];
        }
      }
      ListingTrack(init, nameLen, sizeLen, formatTime, fixedReset);
      InlineFileStep(files, n, nameLen, sizeLen, formatTime, fixedReset);
      assert files[..n + 1] == files;
    }
  }

  /** With the corrected counter the counter is the column, and lines stay within 80
      columns when a field does. */
  lemma {:induction false} CorrectedTrack(n: nat, field: nat)
    ensures InlineTrack(n, field, true).cur == InlineTrack(n, field, true).column
    ensures field <= WIDTH ==> InlineTrack(n, field, true).widest <= WIDTH
  {
    if n > 0 {
      CorrectedTrack(n - 1, field);
    }
  }

  /** With the counter as written, five fields of 40 columns end at column 120. */
  lemma AsWrittenTrack()
    ensures InlineTrack(5, 40, false) == Track(80, 120, 120)
  {
    assert InlineTrack(1, 40, false) == Track(40, 40, 40);
    assert InlineTrack(2, 40, false) == Track(80, 80, 80);
    assert InlineTrack(3, 40, false) == Track(0, 40, 80);
    assert InlineTrack(4, 40, false) == Track(40, 80, 80);
  }

  /** With the corrected counter, the counter is the printed column, and no inline line
      is wider than 80 as long as one field fits in 80 columns. */
  lemma ListingFits(files: seq<FileInfo>, nameLen: nat, sizeLen: nat, formatTime: nat -> string)
    requires NamesFit(files, nameLen)
    ensures var l := ListFiles(files, nameLen, sizeLen, false, formatTime, true);
      l.cur == Column(l.pieces)
      && (nameLen + INLINE_PAD <= WIDTH ==> Widest(l.pieces) <= WIDTH)
  {
    ListingTrack(files, nameLen, sizeLen, formatTime, true);
    CorrectedTrack(|files|, nameLen + INLINE_PAD);
  }

  /** As written, once a line has wrapped the counter lags the printed column by one
      field: with nameLen 39 (fields of 40 columns) the fifth file ends at column 120,
      while the counter says 80. */
  lemma AsWrittenOverflows(files: seq<FileInfo>, sizeLen: nat, formatTime: nat -> string)
    requires |files| == 5 && NamesFit(files, 39)
    ensures var l := ListFiles(files, 39, sizeLen, false, formatTime, false);
      l.cur == 80 && Column(l.pieces) == 120 && Widest(l.pieces) == 120
  {
    ListingTrack(files, 39, sizeLen, formatTime, false);
    AsWrittenTrack();
  }

  /** The pieces of each file, file after file. */
  function Concat(files: seq<FileInfo>, field: FileInfo -> seq<Piece>): seq<Piece>
    decreases |files|
  {
    if |files| == 0 then []
    else Concat(files[..|files| - 1], field) + field(files[|files| - 1])
  }

  /** When every file takes three pieces, the k-th three pieces are the k-th file's. */
  lemma {:induction false} ConcatTriples(files: seq<FileInfo>, field: FileInfo -> seq<Piece>, k: nat)
    requires forall f :: |field(f)| == 3
    requires k < |files|
    ensures |Concat(files, field)| == 3 * |files|
    ensures var ps := Concat(files, field);
      ps[3 * k] == field(files[k])[0] && ps[3 * k + 1] == field(files[k])[1] && ps[3 * k + 2] == field(files[k])[2]
    decreases |files|
  {
    var n := |files| - 1;
    if k < n {
      ConcatTriples(files[..n], field, k);
      assert files[..n][k] == files[k];
    } else if n > 0 {
      ConcatTriples(files[..n], field, n - 1);
    }
  }

  /** The long listing: the three pieces `print_file` prints for each file, in order. */
  function LongListing(files: seq<FileInfo>, nameLen: nat, sizeLen: nat, formatTime: nat -> string): seq<Piece> {
    Concat(files, f => FileField(f, nameLen, sizeLen, true, formatTime))
  }

  /** In long format the print loop prints the long listing. */
  lemma {:induction false} LongIsListing(files: seq<FileInfo>, nameLen: nat, sizeLen: nat, formatTime: nat -> string)
    ensures ListFiles(files, nameLen, sizeLen, true, formatTime, true).pieces == LongListing(files, nameLen, sizeLen, formatTime)
    decreases |files|
  {
    if |files| > 0 {
      LongIsListing(files[..|files| - 1], nameLen, sizeLen, formatTime);
    }
  }

  /** The k-th line of a long listing is what `print_file` prints for `f`. */
  predicate LongLineAt(ps: seq<Piece>, k: nat, f: FileInfo, nameLen: nat, sizeLen: nat, formatTime: nat -> string) {
    3 * k + 3 <= |ps|
    && var line := FileField(f, nameLen, sizeLen, true, formatTime);
       ps[3 * k] == line[0] && ps[3 * k + 1] == line[1] && ps[3 * k + 2] == line[2]
  }

  /** In long format every file is one line of its own, in order. */
  lemma LongOneLinePerFile(files: seq<FileInfo>, nameLen: nat, sizeLen: nat, formatTime: nat -> string)
    ensures var ps := ListFiles(files, nameLen, sizeLen, true, formatTime, true).pieces;
      |ps| == 3 * |files| && forall k :: 0 <= k < |files| ==> LongLineAt(ps, k, files[k], nameLen, sizeLen, formatTime)
  {
    LongIsListing(files, nameLen, sizeLen, formatTime);
    var field := f => FileField(f, nameLen, sizeLen, true, formatTime);
    if |files| > 0 {
      ConcatTriples(files, field, 0);
    }
    forall k | 0 <= k < |files|
      ensures LongLineAt(Concat(files, field), k, files[k], nameLen, sizeLen, formatTime)
    {
      ConcatTriples(files, field, k);
    }
  }

  /** In long format the listing ends at the start of a line. */
  lemma LongEndsLine(files: seq<FileInfo>, nameLen: nat, sizeLen: nat, formatTime: nat -> string)
    requires |files| > 0
    ensures Column(ListFiles(files, nameLen, sizeLen, true, formatTime, true).pieces) == 0
  {
    LongIsListing(files, nameLen, sizeLen, formatTime);
    ConcatTriples(files, f => FileField(f, nameLen, sizeLen, true, formatTime), |files| - 1);
  }

  // ---------------------------------------------------------------------------
  // main (lines 20-92)
  // ---------------------------------------------------------------------------

  datatype LsExit = LsOk | LsFailure

  /** `ls` with the file system given as `info` (for `syscall::info`) and `readDir`
      (for `fs::read_dir`), and the time format as `formatTime`. Besides the exit code
      and what is printed, `listed` is the order the files are printed in. With
      `fixedReset` false the inline wrap counter is the one of lines 68-73 as written;
      with `fixedReset` true it is the corrected one (see `ListingFits`). */
  method Ls(args: seq<string>, cwd: string, info: string -> Option<FileInfo>,
            readDir: string -> Option<seq<FileInfo>>, formatTime: nat -> string, fixedReset: bool)
    returns (exit: LsExit, listed: seq<FileInfo>, out: seq<Piece>)
    ensures var o := OptionsOf(args, cwd);
      && (info(o.path).None? ==> exit == LsFailure && out == [])
      && (info(o.path).Some? && !info(o.path).value.isDir ==>
            var f := info(o.path).value;
            exit == LsOk && listed == [f] && out == FileField(f, ByteLen(f.name), SizeWidth(f), o.longFormat, formatTime))
      && (info(o.path).Some? && info(o.path).value.isDir && readDir(o.path).None? ==> exit == LsFailure && out == [])
      && (info(o.path).Some? && info(o.path).value.isDir && readDir(o.path).Some? ==>
            exit == LsOk
            && SortedByName(listed)
            && multiset(listed) == multiset(Visible(readDir(o.path).value, o.hideDotFiles))
            && out == ListFiles(listed, MaxNameLen(listed), MaxSizeLen(listed), o.longFormat, formatTime, fixedReset).pieces)
  {
    var opts := ParseLsArgs(args, cwd);
    var path := opts.path;
    listed, out := [], [];
    var found := info(path);
    if found.None? {
      return LsFailure, listed, out;
    }
    var fi := found.value;
    if !fi.isDir {
      out := FileField(fi, ByteLen(fi.name), |Decimal(fi.size)|, opts.longFormat, formatTime);
      return LsOk, [fi], out;
    }
    var entries := readDir(path);
    if entries.None? {
      return LsFailure, listed, out;
    }
    var visible := Visible(entries.value, opts.hideDotFiles);
    var files := new FileInfo[|visible|](k requires 0 <= k < |visible| => visible[k]);
    assert files[..] == visible;
    SortByName(files);
    listed := files[..];
    var nameLen := MaxNameLen(listed);
    var sizeLen := MaxSizeLen(listed);
    out := PrintFiles(listed, nameLen, sizeLen, opts.longFormat, formatTime, fixedReset);
    exit := LsOk;
  }

  /** The names printed by a directory listing fit the field `ls` gives them. */
  lemma ListedNamesFit(listed: seq<FileInfo>)
    ensures NamesFit(listed, MaxNameLen(listed))
  {
  }
}
