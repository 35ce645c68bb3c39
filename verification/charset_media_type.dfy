/**
  CharsetMediaType: the `key=value` parameter-line parser `generateMap` and
  the two JSON media-type constants built from it. Strings follow
  `java.lang.String`: `trim` drops every character up to U+0020 from both
  ends, and `split("\\=")` with no limit drops trailing empty segments.
 */
module CharsetMediaType {
  import opened Wrappers

  /** A media type's parameters; a parameter without a value maps to null. */
  type Parameters = map<string, Option<string>>

  datatype MediaType = MediaType(kind: string, subtype: string, parameters: Parameters)

  /** One parsed line: the key and its value, possibly null. */
  datatype Entry = Entry(key: string, value: Option<string>)

  const ApplicationJsonUtf8: string := "application/json; charset=UTF-8"
  const ApplicationJsonIso88591: string := "application/json; charset=ISO-8859-1"

  /** The characters `String.trim` removes. */
  predicate IsTrimmed(c: char) {
    c <= ' '
  }

  /** Every segment is empty. */
  predicate AllEmpty(parts: seq<string>) {
    forall j :: 0 <= j < |parts| ==> parts[j] == ""
  }

  /** Every character of `s` is the separator `=`. */
  predicate AllSeparators(s: string) {
    forall i :: 0 <= i < |s| ==> s[i] == '='
  }

  function TrimStart(s: string): (r: string)
    ensures |r| <= |s| && r == s[|s| - |r|..]
    ensures forall i :: 0 <= i < |s| - |r| ==> IsTrimmed(s[i])
    ensures |r| > 0 ==> !IsTrimmed(r[0])
  {
    if |s| > 0 && IsTrimmed(s[0]) then
      var r := TrimStart(s[1..]);
      assert s[1..][|s| - 1 - |r|..] == s[|s| - |r|..];
      r
    else s
  }

  function TrimEnd(s: string): (r: string)
    ensures |r| <= |s| && r == s[..|r|]
    ensures forall i :: |r| <= i < |s| ==> IsTrimmed(s[i])
    ensures |r| > 0 ==> !IsTrimmed(r[|r| - 1])
  {
    if |s| > 0 && IsTrimmed(s[|s| - 1]) then
      var r := TrimEnd(s[..|s| - 1]);
      assert s[..|s| - 1][..|r|] == s[..|r|];
      r
    else s
  }

  /**
    `r` is `s` with its first `i` characters and everything after `r`
    removed, all of them characters `trim` drops.
   */
  predicate StripsAt(s: string, r: string, i: nat) {
    i <= |s| - |r| && r == s[i..i + |r|]
    && (forall k :: 0 <= k < i ==> IsTrimmed(s[k]))
    && (forall k :: i + |r| <= k < |s| ==> IsTrimmed(s[k]))
  }

  /** `String.trim`: blank input trims to the empty string. */
  function Trim(s: string): (r: string)
    ensures |r| > 0 ==> !IsTrimmed(r[0]) && !IsTrimmed(r[|r| - 1])
    ensures r == "" <==> forall i :: 0 <= i < |s| ==> IsTrimmed(s[i])
    ensures exists i :: StripsAt(s, r, i)
  {
    var left := TrimStart(s);
    var r := TrimEnd(left);
    assert r == "" ==> |left| == 0;
    TrimBothEnds(s);
    r
  }

  /** Trimming the start and then the end strips only trimmed characters. */
  lemma TrimBothEnds(s: string)
    ensures StripsAt(s, TrimEnd(TrimStart(s)), |s| - |TrimStart(s)|)
  {
    var left := TrimStart(s);
    var r := TrimEnd(left);
    var i := |s| - |left|;
    assert left == s[i..];
    assert r == left[..|r|];
    assert r == s[i..i + |r|];
    forall k | i + |r| <= k < |s|
      ensures IsTrimmed(s[k])
    {
      assert s[k] == left[k - i];
    }
  }
  /** Position of the first `c` in `s`, or `|s|` when there is none. */
  function IndexOf(s: string, c: char): (i: nat)
    ensures i <= |s|
    ensures i < |s| ==> s[i] == c
    ensures forall j :: 0 <= j < i ==> s[j] != c
    ensures i == |s| <==> c !in s
  {
    if |s| == 0 || s[0] == c then 0 else 1 + IndexOf(s[1..], c)
  }

  /** All `=`-separated segments of `s`, empty ones included: n separators, n + 1 segments. */
  function SplitSegments(s: string): (parts: seq<string>)
    ensures |parts| >= 1
    decreases |s|
  {
    var i := IndexOf(s, '=');
    if i == |s| then [s] else [s[..i]] + SplitSegments(s[i + 1..])
  }

  /** What `split` keeps: the segments up to the last non-empty one. */
  function DropTrailingEmpty(parts: seq<string>): (r: seq<string>)
    ensures |r| <= |parts| && r == parts[..|r|]
    ensures forall j :: |r| <= j < |parts| ==> parts[j] == ""
    ensures |r| > 0 ==> r[|r| - 1] != ""
  {
    if |parts| == 0 || parts[|parts| - 1] != "" then parts
    else DropTrailingEmpty(parts[..|parts| - 1])
  }

  /** `s.split("\\=")`: an input without a separator comes back whole, even when empty. */
  function JavaSplit(s: string): (r: seq<string>)
    ensures '=' !in s ==> r == [s]
    ensures '=' in s ==> (r == [] <==> AllSeparators(s))
    ensures |r| > 0 ==> r[0] == s[..IndexOf(s, '=')]
  {
    if '=' !in s then
      assert s[..IndexOf(s, '=')] == s;
      [s]
    else
      var parts := SplitSegments(s);
      SegmentsAllEmpty(s);
      KeptSegments(parts);
      SegmentsAtFirstSeparator(s);
      DropTrailingEmpty(parts)
  }

  /**
    One line of `generateMap`: a null line or one that trims to nothing adds
    no entry; otherwise the key is the first segment and the value the
    second, or null when there is none. A line made only of separators
    splits into nothing and `values[0]` throws.
   */
  function ParseLine(line: Option<string>): (r: Result<Option<Entry>, Error>)
    ensures line.None? ==> r == Ok(None)
    ensures line.Some? && Trim(line.value) == "" ==> r == Ok(None)
    ensures r.Ok? && r.value.Some? ==> line.Some? && Trim(line.value) != ""
  {
    match line
    case None => Ok(None)
    case Some(raw) =>
      var t := Trim(raw);
      if |t| == 0 then Ok(None)
      else
        var values := JavaSplit(t);
        if |values| == 0 then Err(ArrayIndexOutOfBounds)
        else Ok(Some(Entry(values[0], if |values| > 1 then Some(values[1]) else None)))
  }

  /** The lines put into the map in order; a later key overwrites an earlier one. */
  function PutAll(acc: Parameters, lines: seq<Option<string>>): (r: Result<Parameters, Error>)
    ensures r.Err? <==> exists i :: 0 <= i < |lines| && ParseLine(lines[i]).Err?
    decreases |lines|
  {
    if |lines| == 0 then Ok(acc)
    else
      var rest := lines[1..];
      assert forall i :: 1 <= i < |lines| ==> lines[i] == rest[i - 1];
      match ParseLine(lines[0])
      case Err(e) => Err(e)
      case Ok(None) => PutAll(acc, rest)
      case Ok(Some(entry)) => PutAll(acc[entry.key := entry.value], rest)
  }

  /** `generateMap(lines...)`: a null or empty argument list gives an empty map. */
  function GenerateMap(lines: Option<seq<Option<string>>>): (r: Result<Parameters, Error>)
    ensures lines.None? || lines.value == [] ==> r == Ok(map[])
    ensures lines.Some? ==>
              (r.Err? <==> exists i :: 0 <= i < |lines.value| && ParseLine(lines.value[i]).Err?)
  {
    match lines
    case None => Ok(map[])
    case Some(ls) => if |ls| == 0 then Ok(map[]) else PutAll(map[], ls)
  }

  /**
    Reference reading of a trimmed, non-blank line, stated on the text
    rather than on split segments: the key is everything before the first
    `=`; the value is the text between the first and the second `=` (or the
    end), unless nothing but separators follows the first `=`, in which
    case it is null; a line of separators only has no key at all.
   */
  function LineSpec(t: string): Result<Entry, Error> {
    if AllSeparators(t) then Err(ArrayIndexOutOfBounds)
    else
      var p := IndexOf(t, '=');
      if p == |t| then Ok(Entry(t, None))
      else
        var rest := t[p + 1..];
        if AllSeparators(rest) then Ok(Entry(t[..p], None))
        else Ok(Entry(t[..p], Some(rest[..IndexOf(rest, '=')])))
  }

  /** Every segment of `s` is empty exactly when `s` is separators only. */
  lemma {:induction false} SegmentsAllEmpty(s: string)
    ensures AllEmpty(SplitSegments(s)) <==> AllSeparators(s)
    decreases |s|
  {
    var i := IndexOf(s, '=');
    var parts := SplitSegments(s);
    if i < |s| {
      var rest := s[i + 1..];
      SegmentsAllEmpty(rest);
      assert parts == [s[..i]] + SplitSegments(rest);
      assert forall j :: 0 <= j < |SplitSegments(rest)| ==> SplitSegments(rest)[j] == parts[j + 1];
      if AllSeparators(s) {
        assert s[0] == '=';
        assert i == 0;
        assert AllSeparators(rest) by {
          forall j | 0 <= j < |rest|
            ensures rest[j] == '='
          {
            assert rest[j] == s[i + 1 + j];
          }
        }
      }
      if AllEmpty(parts) {
        assert parts[0] == s[..i];
        assert |s[..i]| == 0;
        assert AllSeparators(rest);
        forall j | 0 <= j < |s|
          ensures s[j] == '='
        {
          if j > 0 { assert s[j] == rest[j - 1]; }
        }
      }
    } else {
      assert parts == [s];
      if |s| > 0 {
        assert s[0] != '=';
        assert !AllSeparators(s);
        assert parts[0] != "";
        assert !AllEmpty(parts);
      } else {
        assert parts[0] == "";
      }
    }
  }

  /** A line with a separator splits into the text before it and the segments after it. */
  lemma SegmentsAtFirstSeparator(t: string)
    requires '=' in t
    ensures SplitSegments(t) == [t[..IndexOf(t, '=')]] + SplitSegments(t[IndexOf(t, '=') + 1..])
  {
  }

  /** What dropping trailing empty segments keeps of the first two segments. */
  lemma KeptSegments(parts: seq<string>)
    ensures DropTrailingEmpty(parts) == [] <==> AllEmpty(parts)
    ensures |DropTrailingEmpty(parts)| > 0 ==> DropTrailingEmpty(parts)[0] == parts[0]
    ensures |DropTrailingEmpty(parts)| > 1 <==> exists j :: 1 <= j < |parts| && parts[j] != ""
    ensures |DropTrailingEmpty(parts)| > 1 ==> DropTrailingEmpty(parts)[1] == parts[1]
  {
    var r := DropTrailingEmpty(parts);
    if |r| > 0 {
      assert parts[|r| - 1] != "";
    }
  }

  /** A line without a separator is a key with a null value. */
  lemma SplitWithoutSeparator(t: string)
    requires t != "" && '=' !in t
    ensures LineSpec(t) == Ok(Entry(t, None))
    ensures JavaSplit(t) == [t]
  {
    assert !AllSeparators(t) by { assert t[0] != '='; }
    assert IndexOf(t, '=') == |t|;
  }

  /** The segments after the first separator are all empty exactly when only separators follow it. */
  lemma LaterSegmentsEmpty(parts: seq<string>, rest: string)
    requires |parts| > 0 && parts == [parts[0]] + SplitSegments(rest)
    ensures (exists j :: 1 <= j < |parts| && parts[j] != "") <==> !AllSeparators(rest)
  {
    var later := SplitSegments(rest);
    SegmentsAllEmpty(rest);
    assert forall j :: 0 <= j < |later| ==> later[j] == parts[j + 1];
    if !AllSeparators(rest) {
      var j :| 0 <= j < |later| && later[j] != "";
      assert parts[j + 1] != "";
    }
  }

  /** A line with a separator: `split` and the reference reading agree. */
  lemma SplitWithSeparator(t: string)
    requires '=' in t
    ensures |JavaSplit(t)| == 0 <==> LineSpec(t).Err?
    ensures |JavaSplit(t)| > 0 ==>
              LineSpec(t) == Ok(Entry(JavaSplit(t)[0], if |JavaSplit(t)| > 1 then Some(JavaSplit(t)[1]) else None))
  {
    var p := IndexOf(t, '=');
    var rest := t[p + 1..];
    var parts := SplitSegments(t);
    SegmentsAtFirstSeparator(t);
    SegmentsAllEmpty(t);
    LaterSegmentsEmpty(parts, rest);
    KeptSegments(parts);
    assert parts[0] == t[..p];
    if |parts| > 1 {
      assert parts[1] == SplitSegments(rest)[0];
      assert SplitSegments(rest)[0] == rest[..IndexOf(rest, '=')];
    }
  }

  /** The split of a trimmed, non-blank line agrees with the reference reading. */
  lemma ParseLineMatchesSpec(raw: string)
    requires Trim(raw) != ""
    ensures ParseLine(Some(raw)).Err? <==> LineSpec(Trim(raw)).Err?
    ensures ParseLine(Some(raw)).Ok? ==> ParseLine(Some(raw)).value == Some(LineSpec(Trim(raw)).value)
  {
    var t := Trim(raw);
    if '=' in t {
      SplitWithSeparator(t);
    } else {
      SplitWithoutSeparator(t);
    }
  }

  /** The entries of lines that all parse. */
  ghost predicate ParsedAs(lines: seq<Option<string>>, entries: seq<Option<Entry>>) {
    |entries| == |lines| && forall i :: 0 <= i < |lines| ==> ParseLine(lines[i]) == Ok(entries[i])
  }

  /** The map after one parsed line: an entry is put, a skipped line changes nothing. */
  function Put(acc: Parameters, entry: Option<Entry>): (r: Parameters)
    ensures entry.None? ==> r == acc
    ensures entry.Some? ==> entry.value.key in r && r[entry.value.key] == entry.value.value
    ensures forall k :: (entry.None? || k != entry.value.key) ==> (k in r <==> k in acc) && (k in acc ==> r[k] == acc[k])
  {
    match entry
    case None => acc
    case Some(e) => acc[e.key := e.value]
  }

  /** The map built from already parsed lines, in order. */
  function PutEntries(acc: Parameters, entries: seq<Option<Entry>>): Parameters
    decreases |entries|
  {
    if |entries| == 0 then acc else PutEntries(Put(acc, entries[0]), entries[1..])
  }

  /** Over lines that all parse, putting line by line is putting their entries. */
  lemma {:induction false} PutAllIsPutEntries(acc: Parameters, lines: seq<Option<string>>, entries: seq<Option<Entry>>)
    requires ParsedAs(lines, entries)
    ensures PutAll(acc, lines) == Ok(PutEntries(acc, entries))
    decreases |lines|
  {
    if |lines| > 0 {
      assert ParseLine(lines[0]) == Ok(entries[0]);
      assert forall i :: 0 <= i < |lines| - 1 ==> lines[1..][i] == lines[i + 1];
      PutAllIsPutEntries(Put(acc, entries[0]), lines[1..], entries[1..]);
    }
  }

  /** Whether a parsed line adds an entry for `k`. */
  predicate Carries(entry: Option<Entry>, k: string) {
    entry.Some? && entry.value.key == k
  }

  /** Entries that do not carry `k` leave its entry, or its absence, as it was. */
  lemma {:induction false} PutEntriesKeepsOthers(acc: Parameters, entries: seq<Option<Entry>>, k: string)
    requires forall i :: 0 <= i < |entries| ==> !Carries(entries[i], k)
    ensures k in PutEntries(acc, entries) <==> k in acc
    ensures k in acc ==> PutEntries(acc, entries)[k] == acc[k]
    decreases |entries|
  {
    if |entries| > 0 {
      assert !Carries(entries[0], k);
      PutEntriesKeepsOthers(Put(acc, entries[0]), entries[1..], k);
    }
  }

  /** The last entry carrying a key decides its value. */
  lemma {:induction false} PutEntriesLastWins(acc: Parameters, entries: seq<Option<Entry>>, j: nat, k: string)
    requires j < |entries| && Carries(entries[j], k)
    requires forall i :: j < i < |entries| ==> !Carries(entries[i], k)
    ensures k in PutEntries(acc, entries) && PutEntries(acc, entries)[k] == entries[j].value.value
    decreases j
  {
    assert forall i :: 0 <= i < |entries| - 1 ==> entries[1..][i] == entries[i + 1];
    if j == 0 {
      PutEntriesKeepsOthers(Put(acc, entries[0]), entries[1..], k);
    } else {
      PutEntriesLastWins(Put(acc, entries[0]), entries[1..], j - 1, k);
    }
  }

  /** The position of the last entry carrying `k`. */
  function LastCarrier(entries: seq<Option<Entry>>, k: string): (j: nat)
    requires exists i :: 0 <= i < |entries| && Carries(entries[i], k)
    ensures j < |entries| && Carries(entries[j], k)
    ensures forall i :: j < i < |entries| ==> !Carries(entries[i], k)
  {
    var n := |entries| - 1;
    if Carries(entries[n], k) then n
    else
      var i :| 0 <= i < |entries| && Carries(entries[i], k);
      assert entries[..n][i] == entries[i];
      LastCarrier(entries[..n], k)
  }

  /**
    For lines that all parse, the map `generateMap` builds holds exactly the
    keys some line carries, each with the value of the last line carrying it.
   */
  lemma GenerateMapEntries(lines: seq<Option<string>>, entries: seq<Option<Entry>>, k: string)
    requires ParsedAs(lines, entries)
    ensures GenerateMap(Some(lines)).Ok?
    ensures (k in GenerateMap(Some(lines)).value) <==> exists i :: 0 <= i < |entries| && Carries(entries[i], k)
    ensures forall j :: 0 <= j < |entries| && Carries(entries[j], k)
                        && (forall i :: j < i < |entries| ==> !Carries(entries[i], k))
                        ==> GenerateMap(Some(lines)).value[k] == entries[j].value.value
  {
    PutAllIsPutEntries(map[], lines, entries);
    if exists i :: 0 <= i < |entries| && Carries(entries[i], k) {
      var j := LastCarrier(entries, k);
      PutEntriesLastWins(map[], entries, j, k);
      forall j' | 0 <= j' < |entries| && Carries(entries[j'], k) && (forall i :: j' < i < |entries| ==> !Carries(entries[i], k))
        ensures j' == j
      {
      }
    } else {
      PutEntriesKeepsOthers(map[], entries, k);
    }
  }

  /** "application/json; charset=UTF-8" as a media type. */
  function ApplicationJsonTypeUtf8(): (m: MediaType)
    ensures m == MediaType("application", "json", map["charset" := Some("UTF-8")])
  {
    JsonWithCharsetLine("charset=UTF-8", "charset", "UTF-8")
  }

  /** "application/json; charset=ISO-8859-1" as a media type. */
  function ApplicationJsonTypeIso88591(): (m: MediaType)
    ensures m == MediaType("application", "json", map["charset" := Some("ISO-8859-1")])
  {
    JsonWithCharsetLine("charset=ISO-8859-1", "charset", "ISO-8859-1")
  }

  /**
    An application/json media type whose parameters come from one
    `generateMap` line of the form `key=value`, with no blank at either end
    and no further separator.
   */
  function JsonWithCharsetLine(line: string, key: string, value: string): (m: MediaType)
    requires line == key + "=" + value
    requires key != "" && '=' !in key && value != "" && '=' !in value
    requires !IsTrimmed(key[0]) && !IsTrimmed(value[|value| - 1])
    ensures m == MediaType("application", "json", map[key := Some(value)])
  {
    SingleLineMap(line, key, value);
    match GenerateMap(Some([Some(line)]))
    case Ok(parameters) => MediaType("application", "json", parameters)
    case Err(_) => MediaType("application", "json", map[])
  }

  /** The one line of a constant parses to its key and value. */
  lemma SingleLineParse(line: string, key: string, value: string)
    requires line == key + "=" + value
    requires key != "" && '=' !in key && value != "" && '=' !in value
    requires !IsTrimmed(key[0]) && !IsTrimmed(value[|value| - 1])
    ensures ParseLine(Some(line)) == Ok(Some(Entry(key, Some(value))))
  {
    assert line[0] == key[0] && line[|line| - 1] == value[|value| - 1];
    TrimUnpadded(line);
    SingleLineSpec(line, key, value);
    ParseLineMatchesSpec(line);
  }

  /** A text that starts and ends with a kept character trims to itself. */
  lemma TrimUnpadded(t: string)
    requires t != "" && !IsTrimmed(t[0]) && !IsTrimmed(t[|t| - 1])
    ensures Trim(t) == t
  {
    assert TrimStart(t) == t;
    assert TrimEnd(t) == t;
  }

  /** The reference reading of `key=value` with no further separator. */
  lemma SingleLineSpec(line: string, key: string, value: string)
    requires line == key + "=" + value
    requires key != "" && '=' !in key && value != "" && '=' !in value
    ensures LineSpec(line) == Ok(Entry(key, Some(value)))
  {
    var p := |key|;
    assert IndexOf(line, '=') == p by {
      assert line[p] == '=';
      assert forall j :: 0 <= j < p ==> line[j] == key[j];
    }
    assert line[..p] == key && line[p + 1..] == value;
    assert value[..IndexOf(value, '=')] == value;
    assert !AllSeparators(line) by { assert line[0] != '='; }
    assert !AllSeparators(value) by { assert value[0] != '='; }
  }

  lemma SingleLineMap(line: string, key: string, value: string)
    requires line == key + "=" + value
    requires key != "" && '=' !in key && value != "" && '=' !in value
    requires !IsTrimmed(key[0]) && !IsTrimmed(value[|value| - 1])
    ensures GenerateMap(Some([Some(line)])) == Ok(map[key := Some(value)])
  {
    SingleLineParse(line, key, value);
    var lines := [Some(line)];
    var entries := [Some(Entry(key, Some(value)))];
    PutAllIsPutEntries(map[], lines, entries);
    assert entries[1..] == [];
  }
}
