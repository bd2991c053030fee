/**
 * The package version read from the package's `__init__.py` text: the
 * quoted text on the first line that starts with `__version__`.
 */
module Setup {
  import opened Wrappers
  import opened Exceptions
  import opened Text

  const VersionKey := "__version__"

  const NotFoundMessage := "Unable to find version string."

  /** The lines of a text (`splitlines`, with "\n" as the only line break). */
  function Lines(text: string): seq<string>
  {
    Split(text, '\n')
  }

  predicate IsVersionLine(line: string)
  {
    StartsWith(line, VersionKey)
  }

  /** The quote of a version line: a double quote if the line holds one, else a single quote. */
  function Delimiter(line: string): char
  {
    if '"' in line then '"' else '\''
  }

  /** `line.split(delim)[1]`: the text between the first and second quote, an IndexError without a quote. */
  function VersionOfLine(line: string): (r: Result<string, Exc>)
    ensures r.Failure? <==> '"' !in line && '\'' !in line
    ensures r.Failure? ==> r.error == IndexError
    ensures r.Success? ==> Delimiter(line) !in r.value
  {
    var pieces := Split(line, Delimiter(line));
    if |pieces| >= 2 then
      assert '"' in line || '\'' in line by {
        if '"' !in line && '\'' !in line {
          SplitNoSeparator(line, '\'');
        }
      }
      Success(pieces[1])
    else
      assert Delimiter(line) !in line by {
        if Delimiter(line) in line {
          SplitAtSeparator(line, Delimiter(line));
        }
      }
      Failure(IndexError)
  }

  /**
   * The loop of `get_version`: earlier lines that do not start with `__version__` are skipped,
   * the first that does gives the result, and without one a RuntimeError is raised.
   */
  function FindVersion(lines: seq<string>): (r: Result<string, Exc>)
    ensures r == Failure(RuntimeError(NotFoundMessage)) <==> forall k :: 0 <= k < |lines| ==> !IsVersionLine(lines[k])
    ensures forall k :: 0 <= k < |lines| && IsVersionLine(lines[k]) && (forall l :: 0 <= l < k ==> !IsVersionLine(lines[l])) ==>
      r == VersionOfLine(lines[k])
  {
    if |lines| == 0 then Failure(RuntimeError(NotFoundMessage))
    else if IsVersionLine(lines[0]) then VersionOfLine(lines[0])
    else
      var r := FindVersion(lines[1..]);
      assert forall k :: 1 <= k < |lines| ==> lines[k] == lines[1..][k - 1];
      r
  }

  /** `get_version` on the text of the file. */
  function GetVersion(text: string): Result<string, Exc>
  {
    FindVersion(Lines(text))
  }

  /** The version line `__version__ = <q><version><q>` for a quote `q`. */
  function VersionLine(version: string, quote: char): string
  {
    VersionKey + " = " + [quote] + version + [quote]
  }

  /** The quoted text of a version line is its version, whichever quote it uses. */
  lemma VersionOfVersionLine(version: string, quote: char)
    requires quote == '"' || quote == '\''
    requires '"' !in version && quote !in version
    ensures VersionOfLine(VersionLine(version, quote)) == Success(version)
  {
    var head := VersionKey + " = ";
    var line := VersionLine(version, quote);
    assert line == head + [quote] + (version + [quote] + "");
    assert Delimiter(line) == quote by {
      if quote == '\'' {
        assert forall k :: 0 <= k < |line| ==> line[k] != '"';
      }
    }
    assert quote !in head;
    SplitConcat(head, quote, version + [quote] + "");
    SplitConcat(version, quote, "");
    SplitNoSeparator(head, quote);
    SplitNoSeparator(version, quote);
  }

  /** A version line starts with the key and, for a version without a line break, is one line. */
  lemma VersionLineIsOneLine(version: string, quote: char)
    requires quote != '\n' && '\n' !in version
    ensures '\n' !in VersionLine(version, quote) && IsVersionLine(VersionLine(version, quote))
  {
    var head := VersionKey + " = ";
    assert forall i :: 0 <= i < |head| ==> head[i] != '\n';
    assert VersionLine(version, quote) == head + [quote] + version + [quote];
    assert VersionLine(version, quote)[..|VersionKey|] == VersionKey;
  }

  /**
   * A file whose lines before the version line do not start with `__version__` yields the
   * version written on that line, whatever follows it.
   */
  lemma GetVersionOfFile(before: seq<string>, version: string, quote: char, after: seq<string>)
    requires quote == '"' || quote == '\''
    requires '"' !in version && quote !in version && '\n' !in version
    requires forall k :: 0 <= k < |before| ==> '\n' !in before[k] && !IsVersionLine(before[k])
    requires forall k :: 0 <= k < |after| ==> '\n' !in after[k]
    ensures GetVersion(Join(before + [VersionLine(version, quote)] + after, '\n')) == Success(version)
  {
    var line := VersionLine(version, quote);
    var lines := before + [line] + after;
    VersionLineIsOneLine(version, quote);
    OneLineEach(before, line, after);
    SplitJoin(lines, '\n');
    FirstVersionLineWins(before, line, after);
    VersionOfVersionLine(version, quote);
  }

  /** Joining one-line texts: none of them holds a line break. */
  lemma OneLineEach(before: seq<string>, line: string, after: seq<string>)
    requires forall k :: 0 <= k < |before| ==> '\n' !in before[k]
    requires '\n' !in line
    requires forall k :: 0 <= k < |after| ==> '\n' !in after[k]
    ensures forall k :: 0 <= k < |before + [line] + after| ==> '\n' !in (before + [line] + after)[k]
  {
  }

  /** The lines before the first version line do not matter, nor do those after it. */
  lemma FirstVersionLineWins(before: seq<string>, line: string, after: seq<string>)
    requires forall k :: 0 <= k < |before| ==> !IsVersionLine(before[k])
    requires IsVersionLine(line)
    ensures FindVersion(before + [line] + after) == VersionOfLine(line)
  {
    var lines := before + [line] + after;
    var k := |before|;
    assert lines[k] == line;
    assert forall l :: 0 <= l < k ==> lines[l] == before[l];
  }
}
