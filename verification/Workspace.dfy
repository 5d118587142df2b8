/**
 The disk as the code-edit engine sees it through `ScopedFileSystem`: reads
 translate line breaks (text mode), writes store exactly what they are given,
 and the environment decides how each write ends.
 */
module Workspace {
  import opened Common

  /** A regular file: decodable text, or something `read` cannot deliver. It refuses a file that is
      too large with its own error; bytes that are not UTF-8, or an I/O error, make it raise another. */
  datatype Content = Text(text: string) | Unreadable(id: int, raises: bool)

  /** How one write ends: stored; refused before touching the file (size limit, operator
      denial); or broken off by an I/O error that leaves something else behind. */
  datatype WriteOutcome = Stored | Refused | Torn(left: Content)

  datatype Disk = Disk(files: map<string, Content>, script: seq<WriteOutcome>)

  /** Universal-newline reading: "\r\n" and "\r" both arrive as "\n". */
  function TranslateNewlines(s: string): (t: string) {
    if s == "" then ""
    else if s[0] == '\r' then
      "\n" + TranslateNewlines(if |s| > 1 && s[1] == '\n' then s[2..] else s[1..])
    else [s[0]] + TranslateNewlines(s[1..])
  }

  lemma {:induction false} TranslateShrinks(s: string)
    ensures |TranslateNewlines(s)| <= |s|
    ensures '\r' !in TranslateNewlines(s)
    decreases |s|
  {
    if s != "" {
      if s[0] == '\r' {
        TranslateShrinks(if |s| > 1 && s[1] == '\n' then s[2..] else s[1..]);
      } else {
        TranslateShrinks(s[1..]);
      }
    }
  }

  /** Text survives reading unchanged exactly when it holds no carriage return. */
  lemma {:induction false} TranslateIsIdentity(s: string)
    ensures TranslateNewlines(s) == s <==> '\r' !in s
  {
    TranslateShrinks(s);
    if s != "" && '\r' !in s {
      TranslateIsIdentity(s[1..]);
    }
  }

  /** The text with another line end in place of every newline. */
  function WithEnds(s: string, end: string): (t: string) {
    if s == "" then "" else (if s[0] == '\n' then end else [s[0]]) + WithEnds(s[1..], end)
  }

  lemma TranslateEnd(end: string, rest: string)
    requires end in {"\n", "\r", "\r\n"} && (end == "\r" ==> '\n' !in rest)
    ensures TranslateNewlines(end + rest) == "\n" + TranslateNewlines(rest)
  {
    var t := end + rest;
    assert t[|end|..] == rest && (end == "\r" && rest != "" ==> t[1] == rest[0] && rest[0] in rest);
  }

  lemma TranslateOther(c: char, rest: string)
    requires c != '\r'
    ensures TranslateNewlines([c] + rest) == [c] + TranslateNewlines(rest)
  {
    assert ([c] + rest)[1..] == rest;
  }

  /** Text is read the same whichever of the three line ends its file uses. */
  lemma {:induction false} AnyLineEndReads(s: string, end: string)
    requires '\r' !in s && end in {"\n", "\r", "\r\n"}
    ensures TranslateNewlines(WithEnds(s, end)) == s
    ensures end == "\r" ==> '\n' !in WithEnds(s, end)
  {
    hide TranslateNewlines;
    if s == "" {
      assert TranslateNewlines("") == "" by { TranslateIsIdentity(""); }
    } else {
      AnyLineEndReads(s[1..], end);
      if s[0] == '\n' {
        TranslateEnd(end, WithEnds(s[1..], end));
      } else {
        TranslateOther(s[0], WithEnds(s[1..], end));
      }
      assert s == [s[0]] + s[1..];
    }
  }

  function ReadFile(disk: Disk, path: string): (r: Option<string>) {
    if path in disk.files && disk.files[path].Text? then Some(TranslateNewlines(disk.files[path].text)) else None
  }

  /** Reading fails with something other than the file system's own error. */
  predicate ReadRaises(disk: Disk, path: string) {
    path in disk.files && disk.files[path].Unreadable? && disk.files[path].raises
  }

  function WriteFile(disk: Disk, path: string, text: string): (r: (Disk, bool))
    ensures forall q :: q != path ==> (q in r.0.files <==> q in disk.files)
    ensures forall q :: q != path && q in disk.files ==> r.0.files[q] == disk.files[q]
    ensures r.1 ==> path in r.0.files && r.0.files[path] == Text(text)
    ensures r.1 <==> disk.script == [] || disk.script[0].Stored?
    ensures disk.script != [] && disk.script[0].Refused? ==> r.0.files == disk.files
    ensures disk.script != [] && disk.script[0].Torn? ==> path in r.0.files && r.0.files[path] == disk.script[0].left
    ensures r.0.script == if disk.script == [] then [] else disk.script[1..]
  {
    var outcome := if disk.script == [] then Stored else disk.script[0];
    var script := if disk.script == [] then [] else disk.script[1..];
    match outcome
    case Stored => (Disk(disk.files[path := Text(text)], script), true)
    case Refused => (Disk(disk.files, script), false)
    case Torn(left) => (Disk(disk.files[path := left], script), false)
  }

  /** Write k from now on is stored: each write takes the next outcome the environment has in store. */
  predicate Stores(disk: Disk, k: nat) {
    k >= |disk.script| || disk.script[k].Stored?
  }

  function Lookup(disk: Disk, path: string): Option<Content> {
    if path in disk.files then Some(disk.files[path]) else None
  }

  class ScopedFileSystem {
    var disk: Disk

    constructor (disk: Disk)
      ensures this.disk == disk
    {
      this.disk := disk;
    }

    /** A text file is delivered without carriage returns, and as stored exactly when it had none.
        Anything else is refused, a missing file included, or raises. */
    method Read(path: string) returns (r: Option<string>, raised: bool)
      ensures r == ReadFile(disk, path) && (raised <==> ReadRaises(disk, path))
      ensures r.Some? <==> path in disk.files && disk.files[path].Text?
      ensures r.Some? ==> '\r' !in r.value && (r.value == disk.files[path].text <==> '\r' !in disk.files[path].text)
      ensures raised ==> r == None
    {
      r, raised := None, false;
      if path in disk.files {
        match disk.files[path]
        case Text(text) =>
          r := Some(TranslateNewlines(text));
          TranslateShrinks(text);
          TranslateIsIdentity(text);
        case Unreadable(_, raises) =>
          raised := raises;
      }
    }

    method Write(path: string, text: string) returns (ok: bool)
      modifies this
      ensures (disk, ok) == WriteFile(old(disk), path, text)
    {
      var (next, stored) := WriteFile(disk, path, text);
      disk, ok := next, stored;
    }
  }
}
