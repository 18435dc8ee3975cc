/**
  The `OUTPUT` selector (proxy.js:200-218): absent or empty means standard
  output; otherwise the text is split on ':' and its first piece picks the sink,
  the following pieces being that sink's arguments.
 */
module OutputConfig {
  import opened Wrappers
  import Js
  import FileSink

  datatype Selection =
    | Stdout
    | Stderr
    | Tcp(host: Option<string>, port: Option<string>)
    | File(config: FileSink.FileConfig)

  /** 'Unknown OUTPUT format', or the error the file sink's configuration check throws. */
  datatype OutputError = UnknownOutputFormat | FileConfigError(error: FileSink.ConfigError)

  /** `parts[i]`, which is undefined past the end of the array. */
  function At(parts: seq<string>, i: nat): (x: Option<string>)
    ensures x.Some? <==> i < |parts|
    ensures x.Some? ==> x.value == parts[i]
  {
    if i < |parts| then Some(parts[i]) else None
  }

  /** The text before the first ':' (all of it when there is none). */
  function Selector(s: string): (sel: string)
    ensures ':' !in sel
    ensures sel == s || (|sel| < |s| && s[|sel|] == ':' && s[..|sel|] == sel)
  {
    if s == [] || s[0] == ':' then [] else [s[0]] + Selector(s[1..])
  }

  /** The first piece of the split is the selector. */
  lemma {:induction false} SelectorIsFirstPiece(s: string)
    ensures Js.Split(s, ':')[0] == Selector(s)
  {
    if s != [] && s[0] != ':' {
      SelectorIsFirstPiece(s[1..]);
    }
  }

  /**
    The sink named by `OUTPUT`. For `file`, the size and the count go through
    `parseInt(String(parts[i]))` and then the sink's own configuration check,
    whose failure is the thrown 'Invalid file output config'.
   */
  function SelectOutput(output: Option<string>): (r: Result<Selection, OutputError>)
    ensures r.Ok? && r.value.File? ==> r.value.config.filepath != ""
    ensures r.Ok? && r.value.File? ==> output.Some? && Js.Split(output.value, ':')[0] == "file"
    ensures r.Ok? && r.value.Tcp? ==> output.Some? && Js.Split(output.value, ':')[0] == "tcp"
  {
    if output.None? || output.value == "" then Ok(Stdout)
    else
      var parts := Js.Split(output.value, ':');
      if parts[0] == "stdout" then Ok(Stdout)
      else if parts[0] == "stderr" then Ok(Stderr)
      else if parts[0] == "tcp" then Ok(Tcp(At(parts, 1), At(parts, 2)))
      else if parts[0] == "file" then
        var size := Js.ParseInt(Js.ToStringValue(At(parts, 2)));
        var keep := Js.ParseInt(Js.ToStringValue(At(parts, 3)));
        match FileSink.ValidateFileConfig(At(parts, 1), size, keep)
        case Ok(config) => Ok(File(config))
        case Err(e) => Err(FileConfigError(e))
      else Err(UnknownOutputFormat)
  }

  /**
    Absent or empty selects standard output; otherwise the text before the
    first ':' decides, and any selector other than the four known ones is an
    unknown format.
   */
  lemma SelectOutputBySelector(output: Option<string>)
    ensures var r := SelectOutput(output);
      output.None? || output.value == "" ==> r == Ok(Stdout)
    ensures output.Some? && output.value != "" ==>
      var r := SelectOutput(output);
      var sel := Selector(output.value);
      && (r == Ok(Stdout) <==> sel == "stdout")
      && (r == Ok(Stderr) <==> sel == "stderr")
      && (r.Ok? && r.value.Tcp? <==> sel == "tcp")
      && ((r.Ok? && r.value.File?) || r == Err(FileConfigError(FileSink.InvalidFileOutputConfig)) <==> sel == "file")
      && (r == Err(UnknownOutputFormat) <==> sel !in {"stdout", "stderr", "tcp", "file"})
  {
    if output.Some? && output.value != "" {
      SelectorIsFirstPiece(output.value);
    }
  }

  /** `tcp:<host>:<port>` selects the tcp sink with that host and port. */
  lemma TcpDescriptorRoundTrip(host: string, port: string)
    requires ':' !in host && ':' !in port
    ensures SelectOutput(Some("tcp:" + host + ":" + port)) == Ok(Tcp(Some(host), Some(port)))
  {
    var parts := ["tcp", host, port];
    assert parts[1..] == [host, port] && parts[1..][1..] == [port];
    assert Js.Join([host, port], ':') == host + [':'] + port;
    assert Js.Join(parts, ':') == "tcp" + [':'] + (host + [':'] + port);
    assert "tcp" + [':'] + (host + [':'] + port) == "tcp:" + host + ":" + port;
    Js.SplitJoin(parts, ':');
  }

  /** `file:<path>:<size>:<count>`, the numbers written in decimal, selects exactly that file configuration. */
  lemma FileDescriptorRoundTrip(path: string, rotateSizeMB: int, keepCount: int)
    requires path != [] && ':' !in path
    ensures SelectOutput(Some("file:" + path + ":" + Js.IntToDecimal(rotateSizeMB) + ":" + Js.IntToDecimal(keepCount)))
            == Ok(File(FileSink.FileConfig(path, rotateSizeMB, keepCount)))
  {
    var size := Js.IntToDecimal(rotateSizeMB);
    var keep := Js.IntToDecimal(keepCount);
    JoinFileDescriptor(path, size, keep);
    var parts := ["file", path, size, keep];
    Js.SplitJoin(parts, ':');
    SelectFileParts("file:" + path + ":" + size + ":" + keep, parts);
    Js.ParseIntDecimal(rotateSizeMB);
    Js.ParseIntDecimal(keepCount);
  }

  /** A `file` descriptor already split into its four pieces. */
  lemma SelectFileParts(d: string, parts: seq<string>)
    requires Js.Split(d, ':') == parts && |parts| == 4 && parts[0] == "file"
    ensures SelectOutput(Some(d)) ==
      match FileSink.ValidateFileConfig(Some(parts[1]), Js.ParseInt(parts[2]), Js.ParseInt(parts[3]))
      case Ok(config) => Ok(File(config))
      case Err(e) => Err(FileConfigError(e))
  {
  }

  /** A file descriptor without a path is refused. */
  lemma FileWithoutPathIsRefused(rest: string)
    ensures SelectOutput(Some("file")) == Err(FileConfigError(FileSink.InvalidFileOutputConfig))
    ensures SelectOutput(Some("file::" + rest)) == Err(FileConfigError(FileSink.InvalidFileOutputConfig))
  {
    Js.SplitWithoutSeparator("file", ':');
    FileWithEmptyPathIsRefused(rest);
  }

  lemma FileWithEmptyPathIsRefused(rest: string)
    ensures SelectOutput(Some("file::" + rest)) == Err(FileConfigError(FileSink.InvalidFileOutputConfig))
  {
    var parts := Js.Split("file::" + rest, ':');
    assert parts == ["file", ""] + Js.Split(rest, ':') by {
      Js.SplitAtFirst("file", ":" + rest, ':');
      Js.SplitAtFirst("", rest, ':');
      assert "file" + [':'] + (":" + rest) == "file::" + rest;
      assert "" + [':'] + rest == ":" + rest;
    }
    assert At(parts, 1) == Some("");
  }

  lemma JoinFileDescriptor(path: string, size: string, keep: string)
    ensures Js.Join(["file", path, size, keep], ':') == "file:" + path + ":" + size + ":" + keep
  {
    var parts := ["file", path, size, keep];
    assert parts[1..] == [path, size, keep];
    assert parts[1..][1..] == [size, keep];
    assert parts[1..][1..][1..] == [keep];
    assert Js.Join([size, keep], ':') == size + [':'] + keep;
    assert Js.Join([path, size, keep], ':') == path + [':'] + (size + [':'] + keep);
    assert Js.Join(parts, ':') == "file" + [':'] + (path + [':'] + (size + [':'] + keep));
    assert "file" + [':'] + (path + [':'] + (size + [':'] + keep)) == "file:" + path + ":" + size + ":" + keep;
  }

  /** `parseInt("abc")` is NaN. */
  lemma NotANumeral()
    ensures Js.ParseInt("abc").None?
  {
    assert Js.TrimStart("abc") == "abc";
    assert !Js.HasHexPrefix("abc");
    assert Js.DigitValue('a') >= 10;
    assert Js.DigitRun("abc", 10) == "";
  }

  /**
    A size that is not a numeral parses to NaN, and lodash `isNumber(NaN)` is
    true, so the check as written lets it through; the corrected check refuses
    it. `NotANumeral` supplies a concrete size: `file:/var/log/proxy:abc:5`.
   */
  lemma NonNumericSizePassesCheckAsWritten(path: string, size: string, keep: string)
    requires path != [] && ':' !in path && ':' !in size && ':' !in keep
    requires Js.ParseInt(size).None?
    ensures FileSink.AcceptsAsWritten(Some(path), Js.ParseInt(size), Js.ParseInt(keep))
    ensures SelectOutput(Some("file:" + path + ":" + size + ":" + keep)) == Err(FileConfigError(FileSink.InvalidFileOutputConfig))
  {
    JoinFileDescriptor(path, size, keep);
    Js.SplitJoin(["file", path, size, keep], ':');
  }
}
