/** The three fragmentor scripts: read a CSV export, clean it, and write it
    back in parts of at most `MAX_LINES` rows named `<stem>_part<k>`. */
module Fragmentor {
  import opened Results
  import opened Text
  import opened Frames
  import opened Cleaning
  import opened SocialNetworks
  import opened Schema

  /** `MAX_LINES`: the most rows a part holds. */
  const MaxLines := 500

  function Min(a: int, b: int): int {
    if a <= b then a else b
  }

  /** The rows of the parts, in order. */
  function Flatten<T>(parts: seq<seq<T>>): seq<T>
    decreases |parts|
  {
    if parts == [] then [] else parts[0] + Flatten(parts[1..])
  }

  lemma {:induction false} FlattenSnoc<T>(parts: seq<seq<T>>, p: seq<T>)
    ensures Flatten(parts + [p]) == Flatten(parts) + p
    decreases |parts|
  {
    if parts == [] {
      assert [p][1..] == [];
    } else {
      assert (parts + [p])[1..] == parts[1..] + [p];
      FlattenSnoc(parts[1..], p);
    }
  }

  /** The slices `rows[i:i+MAX_LINES]` for `i in range(0, len(rows), MAX_LINES)`. */
  method Split<T>(rows: seq<T>) returns (parts: seq<seq<T>>)
    ensures Flatten(parts) == rows
    ensures |parts| == (|rows| + MaxLines - 1) / MaxLines
    ensures forall k | 0 <= k < |parts| ::
      parts[k] == rows[k * MaxLines .. Min((k + 1) * MaxLines, |rows|)]
    ensures forall k | 0 <= k < |parts| :: 0 < |parts[k]| <= MaxLines
    ensures forall k | 0 <= k < |parts| - 1 :: |parts[k]| == MaxLines
  {
    parts := [];
    var i := 0;
    while i < |rows|
      invariant i == |parts| * MaxLines
      invariant i < |rows| + MaxLines
      invariant Flatten(parts) == rows[..Min(i, |rows|)]
      invariant forall k | 0 <= k < |parts| ::
        k * MaxLines < |rows| && parts[k] == rows[k * MaxLines .. Min((k + 1) * MaxLines, |rows|)]
      decreases |rows| - i
    {
      var end := Min(i + MaxLines, |rows|);
      FlattenSnoc(parts, rows[i..end]);
      assert rows[..i] + rows[i..end] == rows[..end];
      parts := parts + [rows[i..end]];
      i := i + MaxLines;
    }
    assert rows[..|rows|] == rows;
  }

  /** `file_name[:-4]`: the name without its last four characters, or the
      empty string when the name is shorter than that. */
  function Stem(name: string): (s: string)
    ensures |name| >= 4 ==> s + name[|name| - 4..] == name
    ensures |name| < 4 ==> s == ""
  {
    if |name| >= 4 then name[..|name| - 4] else ""
  }

  /** `validate_file_extension`: the script exits unless the name ends with
      the extension. */
  function ValidateFileExtension(name: string, ext: string): (r: Result<string>)
    ensures r.Ok? <==> EndsWith(name, ext)
    ensures r.Ok? ==> r.value == name
  {
    if EndsWith(name, ext) then Ok(name) else Err("invalid extension: " + ext)
  }

  /** A validated `.csv` name is its stem followed by the extension. */
  lemma CsvStem(name: string)
    requires ValidateFileExtension(name, ".csv").Ok?
    ensures Stem(name) + ".csv" == name
  {
  }

  /** `f'{prefix}_part{part}{ext}'`. */
  function PartName(prefix: string, part: nat, ext: string): (s: string)
    ensures StartsWith(s, prefix + "_part") && EndsWith(s, ext)
    ensures |s| == |prefix| + 5 + |NatToString(part)| + |ext|
    ensures s[|prefix| + 5..|s| - |ext|] == NatToString(part)
  {
    prefix + "_part" + NatToString(part) + ext
  }

  /** Different part numbers give different file names, so no part
      overwrites another. */
  lemma PartNamesDistinct(prefix: string, a: nat, b: nat, ext: string)
    requires a != b
    ensures PartName(prefix, a, ext) != PartName(prefix, b, ext)
  {
    if PartName(prefix, a, ext) == PartName(prefix, b, ext) {
      var p := prefix + "_part";
      var sa := NatToString(a);
      var sb := NatToString(b);
      assert p + sa + ext == p + sb + ext;
      assert |sa| == |sb|;
      assert sa == (p + sa + ext)[|p|..|p| + |sa|];
      assert sb == (p + sb + ext)[|p|..|p| + |sb|];
      NatToStringInjective(a, b);
    }
  }

  /** A written file: its name and the rows it holds. */
  datatype Part = Part(name: string, rows: seq<Row>)

  /** The file of each chunk, numbered from 1. */
  function NameParts(prefix: string, ext: string, chunks: seq<seq<Row>>): (ps: seq<Part>)
    ensures |ps| == |chunks|
    ensures forall k | 0 <= k < |ps| :: ps[k] == Part(PartName(prefix, k + 1, ext), chunks[k])
  {
    seq(|chunks|, k requires 0 <= k < |chunks| => Part(PartName(prefix, k + 1, ext), chunks[k]))
  }

  function PartRows(ps: seq<Part>): (cs: seq<seq<Row>>)
    ensures |cs| == |ps| && forall k | 0 <= k < |ps| :: cs[k] == ps[k].rows
  {
    seq(|ps|, k requires 0 <= k < |ps| => ps[k].rows)
  }

  /** What a fragmentor run writes for `rows`: part k holds
      `rows[500k:500(k+1)]` and is named with number k + 1. */
  predicate WritesParts(ps: seq<Part>, rows: seq<Row>, prefix: string, ext: string) {
    && Flatten(PartRows(ps)) == rows
    && |ps| == (|rows| + MaxLines - 1) / MaxLines
    && (forall k | 0 <= k < |ps| ::
          ps[k].rows == rows[k * MaxLines .. Min((k + 1) * MaxLines, |rows|)])
    && (forall k | 0 <= k < |ps| :: 0 < |ps[k].rows| <= MaxLines)
    && (forall k | 0 <= k < |ps| - 1 :: |ps[k].rows| == MaxLines)
    && (forall k | 0 <= k < |ps| :: ps[k].name == PartName(prefix, k + 1, ext))
  }

  method WriteParts(rows: seq<Row>, prefix: string, ext: string) returns (ps: seq<Part>)
    ensures WritesParts(ps, rows, prefix, ext)
  {
    var chunks := Split(rows);
    ps := NameParts(prefix, ext, chunks);
    assert PartRows(ps) == chunks;
  }

  /** `main` of src/fragmentor.py: validate, clean, apply the strict
      `fix_df`, and write `.csv` parts named after the stem. */
  method FragmentCsv(n: Network, fileName: string, input: Frame) returns (r: Result<seq<Part>>)
    requires WellFormed(input)
    ensures r.Ok? <==>
      && EndsWith(fileName, ".csv")
      && CleanDataPosts(input).Ok?
      && FixDfStrict(n, CleanDataPosts(input).value).Ok?
    ensures r.Ok? ==>
      WritesParts(r.value, FixDfStrict(n, CleanDataPosts(input).value).value.rows, Stem(fileName), ".csv")
  {
    var _ :- ValidateFileExtension(fileName, ".csv");
    var cleaned :- CleanDataPosts(input);
    var fixed :- FixDfStrict(n, cleaned);
    var ps := WriteParts(fixed.rows, Stem(fileName), ".csv");
    r := Ok(ps);
  }

  /** `main` of src/client/fragmentor.py: validate, clean, apply the lenient
      `fix_df`, and write `.txt` parts named after the stem. */
  method FragmentText(n: Network, fileName: string, input: Frame) returns (r: Result<seq<Part>>)
    requires WellFormed(input)
    ensures r.Ok? <==>
      && EndsWith(fileName, ".csv")
      && CleanDataPosts(input).Ok?
      && FixDf(n, CleanDataPosts(input).value).Ok?
    ensures r.Ok? ==>
      WritesParts(r.value, FixDf(n, CleanDataPosts(input).value).value.rows, Stem(fileName), ".txt")
  {
    var _ :- ValidateFileExtension(fileName, ".csv");
    var cleaned :- CleanDataPosts(input);
    var fixed :- FixDf(n, cleaned);
    var ps := WriteParts(fixed.rows, Stem(fileName), ".txt");
    r := Ok(ps);
  }

  /** `main` of the top-level fragmentor.py: validate, drop repeated ids,
      and write `.csv` parts named after the whole file name. */
  method FragmentRaw(fileName: string, input: Frame) returns (r: Result<seq<Part>>)
    requires WellFormed(input)
    ensures r.Ok? <==> EndsWith(fileName, ".csv") && "id" in input.columns
    ensures r.Ok? ==>
      HasColumn(input.rows, "id") && WritesParts(r.value, DropDuplicates(input.rows, "id"), fileName, ".csv")
  {
    var _ :- ValidateFileExtension(fileName, ".csv");
    if "id" !in input.columns {
      return Err("KeyError: id");
    }
    assert HasColumn(input.rows, "id");
    var ps := WriteParts(DropDuplicates(input.rows, "id"), fileName, ".csv");
    r := Ok(ps);
  }

  /** The top-level script keeps the extension inside the part names. */
  lemma RawPartNameKeepsExtension()
    ensures PartName("posts.csv", 1, ".csv") == "posts.csv_part1.csv"
    ensures PartName(Stem("posts.csv"), 1, ".csv") == "posts_part1.csv"
  {
  }
}
