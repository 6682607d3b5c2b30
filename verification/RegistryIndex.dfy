/** The local registry index: one file a crate name, one JSON line a published version. */
module RegistryIndex {
  import opened Basics
  import opened Text

  /** A version record; rest stands for the fields that the index code carries along unread. */
  datatype IndexEntry = IndexEntry(name: string, vers: string, cksum: string, rest: string)

  /** The JSON codec of the foreign serialisation library. */
  datatype Codec = Codec(encode: IndexEntry -> string, decode: string -> Option<IndexEntry>) {
    /** Decoding inverts encoding, and an encoded entry is one trimmed line. */
    ghost predicate Lawful() {
      forall e :: CleanLine(encode(e)) && decode(encode(e)) == Some(e)
    }
  }

  type Path = seq<string>
  type Files = map<Path, string>

  // ---- Where a crate lives ------------------------------------------------------------------

  function ToLower(s: string): (t: string)
    ensures |t| == |s|
  {
    if s == [] then []
    else [if 'A' <= s[0] <= 'Z' then (s[0] as int + 32) as char else s[0]] + ToLower(s[1..])
  }

  function NameToPath(name: string): Path {
    var lower := ToLower(name);
    match |lower|
    case 0 => [lower]
    case 1 => ["1", lower]
    case 2 => ["2", lower]
    case 3 => ["3", lower[..1], lower]
    case _ => [lower[..2], lower[2..4], lower]
  }

  ghost predicate SameLetter(c: char, d: char) {
    || c == d
    || ('A' <= c <= 'Z' && d as int == c as int + 32)
    || ('A' <= d <= 'Z' && c as int == d as int + 32)
  }

  ghost predicate SameButCase(a: string, b: string) {
    |a| == |b| && forall i :: 0 <= i < |a| ==> SameLetter(a[i], b[i])
  }

  ghost predicate AllLower(s: string) {
    forall i :: 0 <= i < |s| ==> !('A' <= s[i] <= 'Z')
  }

  lemma {:induction false} ToLowerAt(s: string, i: nat)
    requires i < |s|
    ensures ToLower(s)[i] == if 'A' <= s[i] <= 'Z' then (s[i] as int + 32) as char else s[i]
  {
    if i > 0 {
      ToLowerAt(s[1..], i - 1);
    }
  }

  lemma LowerIffSameButCase(a: string, b: string)
    ensures ToLower(a) == ToLower(b) <==> SameButCase(a, b)
  {
    if |a| == |b| {
      forall i | 0 <= i < |a| ensures ToLower(a)[i] == ToLower(b)[i] <==> SameLetter(a[i], b[i]) {
        ToLowerAt(a, i);
        ToLowerAt(b, i);
      }
    }
  }

  /** Two crates share an index file exactly when their names differ in case only. */
  lemma PathsCollideOnCaseOnly(a: string, b: string)
    ensures NameToPath(a) == NameToPath(b) <==> SameButCase(a, b)
  {
    var p, q := NameToPath(a), NameToPath(b);
    assert p[|p| - 1] == ToLower(a) && q[|q| - 1] == ToLower(b);
    LowerIffSameButCase(a, b);
  }

  /** Cargo's layout: directories named by the length of a short name, or by the first and the second two characters of
      a longer one; names of three characters get a second directory, for the first of them. */
  lemma PathFollowsCargo(name: string)
    requires name != []
    ensures var path := NameToPath(name);
            && SameButCase(path[|path| - 1], name) && AllLower(path[|path| - 1])
            && |path| == (if |name| <= 2 then 2 else 3)
            && (|name| == 1 ==> path[0] == "1") && (|name| == 2 ==> path[0] == "2")
            && (|name| == 3 ==> path[0] == "3" && |path[1]| == 1 && path[1] <= path[2])
            && (|name| > 3 ==> |path[0]| == |path[1]| == 2 && path[0] + path[1] <= path[2])
  {
    var lower := ToLower(name);
    forall i | 0 <= i < |lower| ensures SameLetter(lower[i], name[i]) && !('A' <= lower[i] <= 'Z') {
      ToLowerAt(name, i);
    }
    if |name| > 3 {
      assert lower[..2] + lower[2..4] == lower[..4];
    }
  }

  // ---- The update, on lines -----------------------------------------------------------------

  predicate Matches(codec: Codec, line: string, name: string, vers: string) {
    var r := codec.decode(line);
    r.Some? && r.value.name == name && r.value.vers == vers
  }

  function ReplaceMatching(codec: Codec, lines: seq<string>, entry: IndexEntry): seq<string> {
    if lines == [] then [] else
    var line := lines[|lines| - 1];
    ReplaceMatching(codec, lines[..|lines| - 1], entry)
    + [if Matches(codec, line, entry.name, entry.vers) then codec.encode(entry) else line]
  }

  /** The versions that a file records under a name and version number, in file order. */
  ghost function Records(codec: Codec, lines: seq<string>, name: string, vers: string): seq<IndexEntry> {
    if lines == [] then [] else
    var line := lines[|lines| - 1];
    Records(codec, lines[..|lines| - 1], name, vers)
    + if Matches(codec, line, name, vers) then [codec.decode(line).value] else []
  }

  /** All the other lines, in file order. */
  ghost function Others(codec: Codec, lines: seq<string>, name: string, vers: string): seq<string> {
    if lines == [] then [] else
    var line := lines[|lines| - 1];
    Others(codec, lines[..|lines| - 1], name, vers)
    + if Matches(codec, line, name, vers) then [] else [line]
  }

  predicate Present(codec: Codec, lines: seq<string>, entry: IndexEntry) {
    exists i :: 0 <= i < |lines| && Matches(codec, lines[i], entry.name, entry.vers)
  }

  lemma PresentLast(codec: Codec, lines: seq<string>, line: string, entry: IndexEntry)
    ensures Present(codec, lines + [line], entry)
            <==> Present(codec, lines, entry) || Matches(codec, line, entry.name, entry.vers)
  {
    var longer := lines + [line];
    assert forall i :: 0 <= i < |lines| ==> longer[i] == lines[i];
    assert longer[|lines|] == line;
  }

  function UpsertLines(codec: Codec, lines: seq<string>, entry: IndexEntry): seq<string> {
    if Present(codec, lines, entry)
    then ReplaceMatching(codec, lines, entry)
    else ReplaceMatching(codec, lines, entry) + [codec.encode(entry)]
  }

  lemma {:induction false} ReplaceFacts(codec: Codec, lines: seq<string>, entry: IndexEntry,
                                        name: string, vers: string)
    requires codec.Lawful()
    ensures var lines' := ReplaceMatching(codec, lines, entry);
            && |lines'| == |lines|
            && (Present(codec, lines, entry) <==> Records(codec, lines, entry.name, entry.vers) != [])
            && (!Present(codec, lines, entry) ==> lines' == lines)
            && |Records(codec, lines', entry.name, entry.vers)| == |Records(codec, lines, entry.name, entry.vers)|
            && (forall e :: e in Records(codec, lines', entry.name, entry.vers) ==> e == entry)
            && Others(codec, lines', entry.name, entry.vers) == Others(codec, lines, entry.name, entry.vers)
            && ((name, vers) != (entry.name, entry.vers) ==>
                  Records(codec, lines', name, vers) == Records(codec, lines, name, vers))
  {
    if lines != [] {
      var rest, line := lines[..|lines| - 1], lines[|lines| - 1];
      assert lines == rest + [line];
      ReplaceFacts(codec, rest, entry, name, vers);
      var lines' := ReplaceMatching(codec, lines, entry);
      assert lines'[..|lines'| - 1] == ReplaceMatching(codec, rest, entry);
      assert codec.decode(codec.encode(entry)) == Some(entry);
      PresentLast(codec, rest, line, entry);
    }
  }

  /** After an upsert the version is recorded, as the new entry only, as often as before but at least once;
      every other line, and every other version's record, is kept in order. */
  lemma UpsertFacts(codec: Codec, lines: seq<string>, entry: IndexEntry, name: string, vers: string)
    requires codec.Lawful()
    ensures var was, now := lines, UpsertLines(codec, lines, entry);
            && |Records(codec, now, entry.name, entry.vers)|
               == (if Records(codec, was, entry.name, entry.vers) == [] then 1
                   else |Records(codec, was, entry.name, entry.vers)|)
            && (forall e :: e in Records(codec, now, entry.name, entry.vers) ==> e == entry)
            && Others(codec, now, entry.name, entry.vers) == Others(codec, was, entry.name, entry.vers)
            && ((name, vers) != (entry.name, entry.vers) ==>
                  Records(codec, now, name, vers) == Records(codec, was, name, vers))
  {
    ReplaceFacts(codec, lines, entry, name, vers);
    var replaced, now := ReplaceMatching(codec, lines, entry), UpsertLines(codec, lines, entry);
    if |now| > |lines| {
      assert now[..|now| - 1] == replaced;
      assert codec.decode(codec.encode(entry)) == Some(entry);
    }
  }

  lemma {:induction false} ReplaceAt(codec: Codec, lines: seq<string>, entry: IndexEntry, i: nat)
    requires i < |lines|
    ensures |ReplaceMatching(codec, lines, entry)| == |lines|
    ensures ReplaceMatching(codec, lines, entry)[i]
            == if Matches(codec, lines[i], entry.name, entry.vers) then codec.encode(entry) else lines[i]
  {
    if i < |lines| - 1 {
      ReplaceAt(codec, lines[..|lines| - 1], entry, i);
    } else if |lines| > 1 {
      ReplaceAt(codec, lines[..|lines| - 1], entry, 0);
    }
  }

  /** Line by line: the version's lines become the new entry where they stand, and when there was none it comes last. */
  lemma UpsertKeepsPlaces(codec: Codec, lines: seq<string>, entry: IndexEntry)
    ensures var now := UpsertLines(codec, lines, entry);
            && |now| == |lines| + (if Present(codec, lines, entry) then 0 else 1)
            && (forall i :: 0 <= i < |lines| ==>
                  now[i] == if Matches(codec, lines[i], entry.name, entry.vers) then codec.encode(entry) else lines[i])
            && (!Present(codec, lines, entry) ==> now[|lines|] == codec.encode(entry))
  {
    var replaced := ReplaceMatching(codec, lines, entry);
    if lines != [] {
      ReplaceAt(codec, lines, entry, 0);
    }
    forall i | 0 <= i < |lines|
      ensures replaced[i] == if Matches(codec, lines[i], entry.name, entry.vers) then codec.encode(entry) else lines[i]
    {
      ReplaceAt(codec, lines, entry, i);
    }
  }

  lemma {:induction false} ReplaceTwice(codec: Codec, lines: seq<string>, first: IndexEntry, second: IndexEntry)
    requires codec.Lawful() && first.name == second.name && first.vers == second.vers
    ensures ReplaceMatching(codec, ReplaceMatching(codec, lines, first), second)
            == ReplaceMatching(codec, lines, second)
  {
    if lines != [] {
      var rest := lines[..|lines| - 1];
      ReplaceTwice(codec, rest, first, second);
      var once := ReplaceMatching(codec, lines, first);
      assert once[..|once| - 1] == ReplaceMatching(codec, rest, first);
      assert codec.decode(codec.encode(first)) == Some(first);
    }
  }

  /** The last write of a version wins: an earlier write of it leaves no trace. */
  lemma LastWriteWins(codec: Codec, lines: seq<string>, first: IndexEntry, second: IndexEntry)
    requires codec.Lawful() && first.name == second.name && first.vers == second.vers
    ensures UpsertLines(codec, UpsertLines(codec, lines, first), second) == UpsertLines(codec, lines, second)
  {
    ReplaceFacts(codec, lines, first, first.name, first.vers);
    ReplaceFacts(codec, lines, second, first.name, first.vers);
    ReplaceTwice(codec, lines, first, second);
    var once := UpsertLines(codec, lines, first);
    UpsertFacts(codec, lines, first, first.name, first.vers);
    ReplaceFacts(codec, once, second, first.name, first.vers);
    if |once| > |lines| {
      assert once[..|once| - 1] == lines;
      assert codec.decode(codec.encode(first)) == Some(first);
      assert once == lines + [codec.encode(first)];
    }
  }

  // ---- The update, on files -----------------------------------------------------------------

  function FileLines(files: Files, path: Path): seq<string> {
    if path in files then CleanLines(files[path]) else []
  }

  /** The versions that the index records under a name and version number. */
  ghost function Recorded(codec: Codec, files: Files, name: string, vers: string): seq<IndexEntry> {
    Records(codec, FileLines(files, NameToPath(name)), name, vers)
  }

  function UpsertFiles(codec: Codec, files: Files, entry: IndexEntry): Files {
    var path := NameToPath(entry.name);
    files[path := JoinLines(UpsertLines(codec, FileLines(files, path), entry)) + "\n"]
  }

  lemma {:induction false} ReplaceStaysClean(codec: Codec, lines: seq<string>, entry: IndexEntry)
    requires codec.Lawful() && forall i :: 0 <= i < |lines| ==> CleanLine(lines[i])
    ensures forall i :: 0 <= i < |ReplaceMatching(codec, lines, entry)| ==>
              CleanLine(ReplaceMatching(codec, lines, entry)[i])
  {
    if lines != [] {
      assert CleanLine(codec.encode(entry)) && CleanLine(lines[|lines| - 1]);
      ReplaceStaysClean(codec, lines[..|lines| - 1], entry);
    }
  }

  /** The written file reads back as the updated lines, whatever the file held before. */
  lemma UpsertedFileReadsBack(codec: Codec, files: Files, entry: IndexEntry)
    requires codec.Lawful()
    ensures var path := NameToPath(entry.name);
            FileLines(UpsertFiles(codec, files, entry), path) == UpsertLines(codec, FileLines(files, path), entry)
  {
    var path := NameToPath(entry.name);
    var lines := FileLines(files, path);
    if path in files {
      CleanLinesAreClean(files[path]);
    }
    ReplaceStaysClean(codec, lines, entry);
    assert CleanLine(codec.encode(entry));
    ReplaceFacts(codec, lines, entry, entry.name, entry.vers);
    ReadBack(UpsertLines(codec, lines, entry));
  }

  /** The index records e's version, and as e only. */
  ghost predicate Holds(codec: Codec, files: Files, e: IndexEntry) {
    var records := Recorded(codec, files, e.name, e.vers);
    records != [] && forall r :: r in records ==> r == e
  }

  predicate SameVersion(e: IndexEntry, f: IndexEntry) {
    e.name == f.name && e.vers == f.vers
  }

  /** An upsert keeps the record of every other version, in every file. */
  lemma UpsertKeepsRecorded(codec: Codec, files: Files, entry: IndexEntry, name: string, vers: string)
    requires codec.Lawful() && !(name == entry.name && vers == entry.vers)
    ensures Recorded(codec, UpsertFiles(codec, files, entry), name, vers) == Recorded(codec, files, name, vers)
  {
    UpsertedFileReadsBack(codec, files, entry);
    UpsertFacts(codec, FileLines(files, NameToPath(entry.name)), entry, name, vers);
  }

  /** An upsert makes the index hold its entry, and takes no other version's entry away. */
  lemma UpsertHolds(codec: Codec, files: Files, entry: IndexEntry, e: IndexEntry)
    requires codec.Lawful()
    ensures Holds(codec, UpsertFiles(codec, files, entry), entry)
    ensures !SameVersion(e, entry) ==> (Holds(codec, UpsertFiles(codec, files, entry), e) <==> Holds(codec, files, e))
  {
    UpsertedFileReadsBack(codec, files, entry);
    UpsertFacts(codec, FileLines(files, NameToPath(entry.name)), entry, entry.name, entry.vers);
    if !SameVersion(e, entry) {
      UpsertKeepsRecorded(codec, files, entry, e.name, e.vers);
    }
  }

  /** What one more line of the file does to the rewritten lines and to the replaced flag. */
  lemma NextLine(codec: Codec, existing: seq<string>, i: nat, entry: IndexEntry)
    requires i < |existing|
    ensures var seen, seen', trimmed := TrimAll(existing[..i]), TrimAll(existing[..i + 1]), Trim(existing[i]);
            && (trimmed == [] ==> seen' == seen)
            && (trimmed != [] ==>
                  && ReplaceMatching(codec, seen', entry)
                     == ReplaceMatching(codec, seen, entry)
                        + [if Matches(codec, trimmed, entry.name, entry.vers) then codec.encode(entry) else trimmed]
                  && (Present(codec, seen', entry)
                      <==> Present(codec, seen, entry) || Matches(codec, trimmed, entry.name, entry.vers)))
  {
    var seen, trimmed := TrimAll(existing[..i]), Trim(existing[i]);
    assert existing[..i + 1][..i] == existing[..i];
    assert (seen + [trimmed])[..|seen|] == seen;
    PresentLast(codec, seen, trimmed, entry);
  }

  /** The loop over an existing file's lines. */
  method RewriteLines(codec: Codec, existing: seq<string>, entry: IndexEntry) returns (lines: seq<string>)
    ensures lines == UpsertLines(codec, TrimAll(existing), entry)
  {
    var json := codec.encode(entry);
    var replaced := false;
    lines := [];
    for i := 0 to |existing|
      invariant lines == ReplaceMatching(codec, TrimAll(existing[..i]), entry)
      invariant replaced <==> Present(codec, TrimAll(existing[..i]), entry)
    {
      var trimmed := Trim(existing[i]);
      NextLine(codec, existing, i, entry);
      if trimmed == [] {
        continue;
      }
      var existingEntry := codec.decode(trimmed);
      if existingEntry.Some? && existingEntry.value.name == entry.name && existingEntry.value.vers == entry.vers {
        lines := lines + [json];
        replaced := true;
        continue;
      }
      lines := lines + [trimmed];
    }
    assert existing[..|existing|] == existing;
    if !replaced {
      lines := lines + [json];
    }
  }

  /** What one upsert does to the files. */
  type Put = (Files, IndexEntry) -> Files

  /** put is UpsertFiles; it is unfolded only where UpsertFiles is mentioned. */
  ghost predicate Upserts(put: Put, codec: Codec) {
    forall files, entry {:trigger UpsertFiles(codec, files, entry)} ::
      put(files, entry) == UpsertFiles(codec, files, entry)
  }

  class Index {
    const codec: Codec
    ghost const put: Put
    var files: Files

    ghost predicate Valid() {
      Upserts(put, codec)
    }

    constructor (codec: Codec, files: Files)
      ensures Valid() && this.codec == codec && this.files == files
    {
      this.codec, this.files := codec, files;
      this.put := (f: Files, e: IndexEntry) => UpsertFiles(codec, f, e);
    }

    method UpsertEntry(entry: IndexEntry)
      requires Valid()
      modifies this
      ensures files == put(old(files), entry)
    {
      var path := NameToPath(entry.name);
      var content;
      if path in files {
        var lines := RewriteLines(codec, Lines(files[path]), entry);
        content := JoinLines(lines) + "\n";
      } else {
        content := codec.encode(entry) + "\n";
        assert UpsertLines(codec, [], entry) == [codec.encode(entry)];
      }
      ghost var was := files;
      files := files[path := content];
      assert files == UpsertFiles(codec, was, entry);
    }
  }
}
