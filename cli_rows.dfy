/** The row specifications of `src/cli.rs`: the `Pb` record with its
    builders, and the ordered rows `get_progress_bars` derives from a record.
    Templates are plain strings; the ANSI colouring the source splices into
    them is not modelled. */
module CliRows {
  import opened Wrappers
  import opened Strings
  import opened Models
  import opened PrInfoOps

  const HeaderTemplate := "====> {prefix:.white.bold}{msg:.white.bold}"
  const SectionTemplate := "----> {prefix:.white.bold}{msg:.white.bold}"
  const UrlTemplate := "> {msg}"
  const CheckSuffix := "{prefix:.bold.dim}"

  /** The description of one dashboard row (`struct Pb`). */
  datatype Pb = Pb(key: string, prefix: string, message: string, template: string, tickChars: string, indent: nat)
  {
    /** `Pb::new`: only the key is set. */
    static function New(key: string): Pb
    {
      Pb(key, "", "", "", "", 0)
    }

    /** `Pb::new_with_pkey`: the key doubles as the prefix. */
    static function NewWithPkey(key: string): Pb
    {
      New(key).WithPrefix(key)
    }

    static function NewWithPkeyAndMessage(key: string, message: string): Pb
    {
      New(key).WithPrefix(key).WithMessage(message)
    }

    static function NewHeader(key: string): Pb
    {
      NewWithPkey(key).AsHeader()
    }

    static function NewSection(key: string): Pb
    {
      NewWithPkey(key).AsSection()
    }

    // Each `with_*` assigns one field of its (temporary) receiver and returns
    // a clone of it: the returned copy is all a caller can observe.

    function WithPrefix(p: string): Pb
    {
      this.(prefix := p)
    }

    function WithMessage(m: string): Pb
    {
      this.(message := m)
    }

    function WithTemplate(t: string): Pb
    {
      this.(template := t)
    }

    function WithTickChars(t: string): Pb
    {
      this.(tickChars := t)
    }

    function WithIndent(n: nat): Pb
    {
      this.(indent := n)
    }

    function AsHeader(): Pb
    {
      WithTemplate(HeaderTemplate)
    }

    function AsSection(): Pb
    {
      WithTemplate(SectionTemplate)
    }
  }

  /** What each constructor sets, and that a builder changes its own field only. */
  lemma PbConstructors(key: string, message: string, b: Pb, s: string, n: nat)
    ensures Pb.New(key).key == key && Pb.New(key) == Pb(key, "", "", "", "", 0)
    ensures Pb.NewWithPkey(key) == Pb(key, key, "", "", "", 0)
    ensures Pb.NewWithPkeyAndMessage(key, message) == Pb(key, key, message, "", "", 0)
    ensures Pb.NewHeader(key) == Pb(key, key, "", HeaderTemplate, "", 0)
    ensures Pb.NewSection(key) == Pb(key, key, "", SectionTemplate, "", 0)
    ensures b.WithPrefix(s) == Pb(b.key, s, b.message, b.template, b.tickChars, b.indent)
    ensures b.WithMessage(s) == Pb(b.key, b.prefix, s, b.template, b.tickChars, b.indent)
    ensures b.WithTemplate(s) == Pb(b.key, b.prefix, b.message, s, b.tickChars, b.indent)
    ensures b.WithTickChars(s) == Pb(b.key, b.prefix, b.message, b.template, s, b.indent)
    ensures b.WithIndent(n) == Pb(b.key, b.prefix, b.message, b.template, b.tickChars, n)
  {
  }

  /** The keys of a sequence of rows, in order. */
  function KeysOf(specs: seq<Pb>): (r: seq<string>)
    ensures |r| == |specs|
    ensures forall i :: 0 <= i < |specs| ==> r[i] == specs[i].key
  {
    seq(|specs|, i requires 0 <= i < |specs| => specs[i].key)
  }

  /** The width of the file column: the `max_by` path length. */
  function LongestPath(files: seq<File>): (r: nat)
    requires files != []
    ensures forall i :: 0 <= i < |files| ==> |files[i].path| <= r
    ensures exists i :: 0 <= i < |files| && |files[i].path| == r
  {
    if |files| == 1 then |files[0].path|
    else
      var rest := LongestPath(files[1..]);
      if |files[0].path| > rest then |files[0].path| else rest
  }

  /** The message of a file row, `"{additions}+{deletions}-"`. */
  function DiffMessage(f: File): string
  {
    NatToString(f.additions) + "+" + NatToString(f.deletions) + "-"
  }

  /** Reads a file row's message back into its two counts. */
  function ParseDiffMessage(m: string): Option<(nat, nat)>
  {
    match IndexOf(m, "+")
    case None => None
    case Some(i) =>
      var adds := m[..i];
      var rest := m[i + 1..];
      if adds != [] && AllDigits(adds) && |rest| >= 2 && rest[|rest| - 1] == '-' && AllDigits(rest[..|rest| - 1])
      then Some((DigitsValue(adds), DigitsValue(rest[..|rest| - 1])))
      else None
  }

  /** A file row's message carries exactly the file's counts. */
  lemma {:induction false} DiffMessageRoundTrip(f: File)
    ensures ParseDiffMessage(DiffMessage(f)) == Some((f.additions, f.deletions))
  {
    var a, d := NatToString(f.additions), NatToString(f.deletions);
    var m := DiffMessage(f);
    assert m[|a|] == '+';
    assert MatchAt(m, "+", |a|);
    forall j: nat | j < |a|
      ensures !MatchAt(m, "+", j)
    {
      assert m[j..j + 1][0] == a[j];
    }
    assert IndexOf(m, "+") == Some(|a|);
    assert m[..|a|] == a;
    assert m[|a| + 1..] == d + "-";
    assert (d + "-")[..|d|] == d;
    NatToStringRoundTrip(f.additions);
    NatToStringRoundTrip(f.deletions);
  }

  /** The template of a file row; `width` pads the path column. */
  function FileTemplate(width: nat): string
  {
    "  --> {prefix:" + NatToString(width) + "} | {msg}"
  }

  function FileRow(f: File, width: nat): Pb
  {
    Pb.NewWithPkeyAndMessage(f.path, DiffMessage(f)).WithTemplate(FileTemplate(width))
  }

  /** One file row per file, all with the same column width. */
  function MapFileRows(files: seq<File>, width: nat): seq<Pb>
  {
    seq(|files|, i requires 0 <= i < |files| => FileRow(files[i], width))
  }

  /** The template of a check row: a spinner slot only while it runs. */
  function CheckTemplate(complete: bool): string
  {
    "{msg}" + (if complete then " " else " {spinner} ") + CheckSuffix
  }

  /** The template animates a spinner. */
  ghost predicate HasSpinner(template: string)
  {
    Occurs(template, "{spinner}")
  }

  lemma {:induction false} CheckTemplateSpinner(complete: bool)
    ensures HasSpinner(CheckTemplate(complete)) <==> !complete
  {
    var t := CheckTemplate(complete);
    if complete {
      assert t == "{msg} {prefix:.bold.dim}";
      assert 'n' !in t;
      forall j: nat
        ensures !MatchAt(t, "{spinner}", j)
      {
        if j + 9 <= |t| {
          assert t[j + 4] == t[j..j + 9][4];
        }
      }
    } else {
      assert t[6..15] == "{spinner}";
      assert MatchAt(t, "{spinner}", 6);
    }
  }

  function CheckRow(c: StatusCheck): Pb
  {
    Pb.NewWithPkeyAndMessage(c.Name(), "[" + c.ShortStatusStr() + "]").WithTemplate(CheckTemplate(c.IsComplete()))
  }

  function MapCheckRows(checks: seq<StatusCheck>): seq<Pb>
  {
    seq(|checks|, i requires 0 <= i < |checks| => CheckRow(checks[i]))
  }

  /** A check row is keyed by the check's name, shows its label in brackets,
      and animates a spinner exactly while the check is incomplete. */
  lemma CheckRowShape(c: StatusCheck)
    ensures CheckRow(c).key == c.Name() && CheckRow(c).prefix == c.Name()
    ensures |CheckRow(c).message| == 6 && CheckRow(c).message[1..5] == c.ShortStatusStr()
    ensures CheckRow(c).message[0] == '[' && CheckRow(c).message[5] == ']'
    ensures HasSpinner(CheckRow(c).template) <==> !c.IsComplete()
  {
    CheckTemplateSpinner(c.IsComplete());
  }

  /** Header block: header, url, body section and body text. */
  function HeaderRows(info: PrInfo): seq<Pb>
  {
    [ Pb.NewHeader("header").WithPrefix("#" + NatToString(info.number) + " - " + info.title),
      Pb.NewWithPkeyAndMessage("url", info.url).WithTemplate(UrlTemplate).WithIndent(4),
      Pb.NewSection("body"),
      Pb.New("_body").WithMessage(info.body) ]
  }

  /** The files section; absent when there are no files. */
  function FileRows(files: seq<File>): seq<Pb>
  {
    if files == [] then [] else [Pb.NewSection("files")] + MapFileRows(files, LongestPath(files))
  }

  /** The details block; `state` and `url` repeat keys used above. */
  function DetailRows(info: PrInfo): seq<Pb>
    requires info.commits != []
  {
    [ Pb.NewSection("details"),
      Pb.NewWithPkeyAndMessage("state", info.state),
      Pb.NewWithPkeyAndMessage("author", info.author.login),
      Pb.NewWithPkeyAndMessage("createdAt", info.createdAt),
      Pb.NewWithPkeyAndMessage("updatedAt", info.updatedAt),
      Pb.NewWithPkeyAndMessage("state", info.state),
      Pb.NewWithPkeyAndMessage("sha", Sha(info)),
      Pb.NewWithPkeyAndMessage("url", info.url) ]
  }

  /** The checks section; absent when the rollup is empty. */
  function CheckRows(checks: seq<StatusCheck>): seq<Pb>
  {
    if checks == [] then [] else [Pb.NewSection("checks")] + MapCheckRows(checks)
  }

  /** The rows of one frame, in display order. */
  function RowSpecs(info: PrInfo): seq<Pb>
    requires info.commits != []
  {
    HeaderRows(info) + FileRows(info.files) + DetailRows(info) + CheckRows(info.statusCheckRollup)
  }

  function Paths(files: seq<File>): (r: seq<string>)
    ensures |r| == |files|
  {
    seq(|files|, i requires 0 <= i < |files| => files[i].path)
  }

  function Names(checks: seq<StatusCheck>): (r: seq<string>)
    ensures |r| == |checks|
  {
    seq(|checks|, i requires 0 <= i < |checks| => checks[i].Name())
  }

  lemma KeysOfAppend(a: seq<Pb>, b: seq<Pb>)
    ensures KeysOf(a + b) == KeysOf(a) + KeysOf(b)
  {
  }

  lemma FileRowKeys(files: seq<File>)
    ensures KeysOf(FileRows(files)) == (if files == [] then [] else ["files"] + Paths(files))
  {
    if files != [] {
      KeysOfAppend([Pb.NewSection("files")], MapFileRows(files, LongestPath(files)));
    }
  }

  lemma CheckRowKeys(checks: seq<StatusCheck>)
    ensures KeysOf(CheckRows(checks)) == (if checks == [] then [] else ["checks"] + Names(checks))
  {
    if checks != [] {
      KeysOfAppend([Pb.NewSection("checks")], MapCheckRows(checks));
    }
  }

  /** The fixed row order: header block, then the files section only when
      there are files, the details block, then the checks section only when
      there are checks. */
  lemma {:induction false} RowOrder(info: PrInfo)
    requires info.commits != []
    ensures KeysOf(RowSpecs(info)) ==
      ["header", "url", "body", "_body"]
      + (if info.files == [] then [] else ["files"] + Paths(info.files))
      + ["details", "state", "author", "createdAt", "updatedAt", "state", "sha", "url"]
      + (if info.statusCheckRollup == [] then [] else ["checks"] + Names(info.statusCheckRollup))
  {
    var h, f, d, c := HeaderRows(info), FileRows(info.files), DetailRows(info), CheckRows(info.statusCheckRollup);
    KeysOfAppend(h, f);
    KeysOfAppend(h + f, d);
    KeysOfAppend(h + f + d, c);
    assert KeysOf(h) == ["header", "url", "body", "_body"];
    assert KeysOf(d) == ["details", "state", "author", "createdAt", "updatedAt", "state", "sha", "url"];
    FileRowKeys(info.files);
    CheckRowKeys(info.statusCheckRollup);
  }

  /** Where the header and details blocks sit among a frame's rows. */
  lemma FrameBlocks(info: PrInfo)
    requires info.commits != []
    ensures var rows, d := RowSpecs(info), 4 + |FileRows(info.files)|;
      |rows| >= d + 8 && rows[..4] == HeaderRows(info) && rows[d..d + 8] == DetailRows(info)
  {
    var h, f, dt := HeaderRows(info), FileRows(info.files), DetailRows(info);
    var rows := h + f + dt + CheckRows(info.statusCheckRollup);
    assert rows[..4] == h;
    assert rows[4 + |f|..4 + |f| + 8] == dt;
  }

  /** The header and details blocks show the record: the title line, the url,
      the body, then state, author, both dates, the head sha and the url
      again, each keyed as the detail it shows. */
  lemma FrameShowsRecord(info: PrInfo)
    requires info.commits != []
    ensures var rows, d := RowSpecs(info), 4 + |FileRows(info.files)|;
      && |rows| >= d + 8
      && rows[0] == Pb("header", "#" + NatToString(info.number) + " - " + info.title, "", HeaderTemplate, "", 0)
      && rows[1] == Pb("url", "url", info.url, UrlTemplate, "", 4)
      && rows[3] == Pb("_body", "", info.body, "", "", 0)
      && rows[d + 1] == Pb("state", "state", info.state, "", "", 0)
      && rows[d + 2] == Pb("author", "author", info.author.login, "", "", 0)
      && rows[d + 3] == Pb("createdAt", "createdAt", info.createdAt, "", "", 0)
      && rows[d + 4] == Pb("updatedAt", "updatedAt", info.updatedAt, "", "", 0)
      && rows[d + 6] == Pb("sha", "sha", Sha(info), "", "", 0)
      && rows[d + 7] == Pb("url", "url", info.url, "", "", 0)
  {
    FrameBlocks(info);
    var rows, d := RowSpecs(info), 4 + |FileRows(info.files)|;
    var hs, ds := rows[..4], rows[d..d + 8];
    assert rows[0] == hs[0] && rows[1] == hs[1] && rows[3] == hs[3];
    assert rows[d + 1] == ds[1] && rows[d + 2] == ds[2] && rows[d + 3] == ds[3];
    assert rows[d + 4] == ds[4] && rows[d + 6] == ds[6] && rows[d + 7] == ds[7];
  }

  /** Every file row is keyed and prefixed by its path, carries its counts,
      and pads the path column to the longest path of the record. */
  lemma {:induction false} FileRowsAligned(files: seq<File>, i: nat)
    requires i < |files|
    ensures |FileRows(files)| == |files| + 1
    ensures FileRows(files)[i + 1].key == files[i].path && FileRows(files)[i + 1].prefix == files[i].path
    ensures ParseDiffMessage(FileRows(files)[i + 1].message) == Some((files[i].additions, files[i].deletions))
    ensures exists w: nat ::
      && FileRows(files)[i + 1].template == FileTemplate(w)
      && (forall j :: 0 <= j < |files| ==> |files[j].path| <= w)
      && (exists j :: 0 <= j < |files| && |files[j].path| == w)
  {
    var w := LongestPath(files);
    assert FileRows(files)[i + 1] == FileRow(files[i], w);
    DiffMessageRoundTrip(files[i]);
  }

  /** The files part of `get_progress_bars`: the section, then one row per
      file, all padded to the longest path. */
  method BuildFileRows(files: seq<File>) returns (rows: seq<Pb>)
    ensures rows == FileRows(files)
  {
    rows := [];
    if files != [] {
      rows := [Pb.NewSection("files")];
      var longest := LongestPath(files);
      var i := 0;
      while i < |files|
        invariant 0 <= i <= |files|
        invariant rows == [Pb.NewSection("files")] + MapFileRows(files[..i], longest)
      {
        assert MapFileRows(files[..i + 1], longest) == MapFileRows(files[..i], longest) + [FileRow(files[i], longest)];
        rows := rows + [FileRow(files[i], longest)];
        i := i + 1;
      }
      assert files[..i] == files;
    }
  }

  /** The checks part of `get_progress_bars`: the section, then one row per
      check of the rollup. */
  method BuildCheckRows(checks: seq<StatusCheck>) returns (rows: seq<Pb>)
    ensures rows == CheckRows(checks)
  {
    rows := [];
    if checks != [] {
      rows := [Pb.NewSection("checks")];
      var i := 0;
      while i < |checks|
        invariant 0 <= i <= |checks|
        invariant rows == [Pb.NewSection("checks")] + MapCheckRows(checks[..i])
      {
        assert MapCheckRows(checks[..i + 1]) == MapCheckRows(checks[..i]) + [CheckRow(checks[i])];
        rows := rows + [CheckRow(checks[i])];
        i := i + 1;
      }
      assert checks[..i] == checks;
    }
  }

  /** `get_progress_bars`' construction of `pb_keys` by `extend` and `push`. */
  method BuildRowSpecs(info: PrInfo) returns (pbKeys: seq<Pb>)
    requires info.commits != []
    ensures pbKeys == RowSpecs(info)
  {
    var fileRows := BuildFileRows(info.files);
    var checkRows := BuildCheckRows(info.statusCheckRollup);
    pbKeys := HeaderRows(info) + fileRows + DetailRows(info) + checkRows;
  }
}
