/** `SocialNetwork.fix_df`: rebuilding an export frame in the target schema,
    column by column in table order, then deriving `profileUrl` from
    `username`. Two revisions exist: the lenient one adds a missing
    `username` column; the strict one (src/utils/utils.py and
    src/fragmentor.py) reads `username` unconditionally. */
module Schema {
  import opened Results
  import opened Frames
  import opened SocialNetworks

  /** Every mapping that copies a column finds it in the input. */
  predicate SourcesPresent(ms: seq<ColumnMapping>, input: Frame) {
    forall i | 0 <= i < |ms| :: ms[i].source == "" || ms[i].source in input.columns
  }

  /** The cell mapping `m` puts in row `k`: the copied cell or the default. */
  function MappedCell(m: ColumnMapping, input: Frame, k: int): Cell
    requires WellFormed(input) && 0 <= k < |input.rows|
    requires m.source == "" || m.source in input.columns
  {
    if m.source == "" then m.default else input.rows[k][m.source]
  }

  /** Row `k` of the mapped frame: every target holds its mapping's cell. */
  function MappedRow(ms: seq<ColumnMapping>, input: Frame, k: int): (row: Row)
    requires WellFormed(input) && 0 <= k < |input.rows|
    requires SourcesPresent(ms, input) && Distinct(Targets(ms))
    ensures row.Keys == set t | t in Targets(ms)
    ensures forall j | 0 <= j < |ms| :: ms[j].target in row && row[ms[j].target] == MappedCell(ms[j], input, k)
  {
    var row := map j | 0 <= j < |ms| :: ms[j].target := MappedCell(ms[j], input, k);
    assert forall t :: t in row <==> t in Targets(ms) by {
      forall t ensures t in row <==> t in Targets(ms) {
        if t in Targets(ms) {
          var j :| 0 <= j < |ms| && Targets(ms)[j] == t;
          assert ms[j].target == t;
        }
      }
    }
    row
  }

  /** `profileUrl` cells built from a column of user names
      (`df['username'].apply(generate_profile_url)`). */
  function ProfileColumn(n: Network, users: seq<Cell>): (col: seq<Cell>)
    ensures |col| == |users|
    ensures forall k | 0 <= k < |users| :: col[k] == Text(ProfileUrl(n, Render(users[k])))
  {
    seq(|users|, k requires 0 <= k < |users| => Text(ProfileUrl(n, Render(users[k]))))
  }

  predicate SomeUserKnown(f: Frame)
    requires WellFormed(f) && "username" in f.columns
  {
    exists k | 0 <= k < |f.rows| :: f.rows[k]["username"] != Null
  }

  /** A table `fix_df` can run: targets are unique, one of them is
      `profileUrl`, and the first entry is copied from the input, which is
      what gives the rebuilt frame its rows. */
  predicate UsableTable(ms: seq<ColumnMapping>) {
    && |ms| > 0
    && ms[0].source != ""
    && Distinct(Targets(ms))
    && "profileUrl" in Targets(ms)
  }

  /** The assignment loop of `fix_df`
      (`df_fixed[ec_column] = posts_cl[cl_column] if cl_column else value`),
      by its net effect: as the targets are distinct, each assignment appends
      one column, and a copied column that is missing raises `KeyError`. */
  function MapFrame(ms: seq<ColumnMapping>, input: Frame): (r: Result<Frame>)
    requires WellFormed(input) && UsableTable(ms)
    ensures r.Ok? <==> SourcesPresent(ms, input)
    ensures r.Ok? ==> WellFormed(r.value) && |r.value.rows| == |input.rows|
    ensures r.Ok? ==> r.value.columns == Targets(ms)
    ensures r.Ok? ==> forall k, j | 0 <= k < |input.rows| && 0 <= j < |ms| ::
      ms[j].target in r.value.rows[k] && r.value.rows[k][ms[j].target] == MappedCell(ms[j], input, k)
  {
    if SourcesPresent(ms, input) then
      var f := Frame(Targets(ms), seq(|input.rows|, k requires 0 <= k < |input.rows| => MappedRow(ms, input, k)));
      assert ColumnSet(f) == set t | t in Targets(ms);
      Ok(f)
    else
      Err("KeyError")
  }

  /** The body of the lenient `fix_df` for a given table. */
  function FixWith(n: Network, ms: seq<ColumnMapping>, input: Frame): Result<Frame>
    requires WellFormed(input) && UsableTable(ms)
  {
    var mapped :- MapFrame(ms, input);
    var withUser :=
      if "username" in mapped.columns then mapped
      else WithColumn(mapped, "username", Broadcast(|mapped.rows|, Null));
    if SomeUserKnown(withUser) then
      Ok(WithColumn(withUser, "profileUrl", ProfileColumn(n, Column(withUser, "username"))))
    else
      Ok(withUser)
  }

  /** The body of the strict `fix_df` for a given table. */
  function FixStrictWith(n: Network, ms: seq<ColumnMapping>, input: Frame): Result<Frame>
    requires WellFormed(input) && UsableTable(ms)
  {
    var mapped :- MapFrame(ms, input);
    if "username" !in mapped.columns then
      Err("KeyError: username")
    else
      Ok(WithColumn(mapped, "profileUrl", ProfileColumn(n, Column(mapped, "username"))))
  }

  /** `fix_df` of src/social_network/social_network.py. */
  function FixDf(n: Network, input: Frame): (r: Result<Frame>)
    requires WellFormed(input)
    ensures r.Ok? <==> SourcesPresent(MappingColumns(n), input)
    ensures r.Ok? ==> "username" in r.value.columns && |r.value.rows| == |input.rows|
  {
    MappingTableShape(n);
    FixWithColumns(n, MappingColumns(n), input);
    FixWith(n, MappingColumns(n), input)
  }

  /** `fix_df` of src/utils/utils.py and src/fragmentor.py: `username` is read
      whether or not the table produced it. */
  function FixDfStrict(n: Network, input: Frame): (r: Result<Frame>)
    requires WellFormed(input)
    ensures r.Ok? <==> SourcesPresent(MappingColumns(n), input) && "username" in Targets(MappingColumns(n))
    ensures r.Ok? ==> r.value.columns == Targets(MappingColumns(n)) && |r.value.rows| == |input.rows|
  {
    MappingTableShape(n);
    FixStrictWith(n, MappingColumns(n), input)
  }

  /** The columns a fixed frame has, in order: the table's targets, then
      `username` when the table lacks it. */
  function FixedColumns(ms: seq<ColumnMapping>): seq<string> {
    var ts := Targets(ms);
    if "username" in ts then ts else ts + ["username"]
  }

  lemma FixWithColumns(n: Network, ms: seq<ColumnMapping>, input: Frame)
    requires WellFormed(input) && UsableTable(ms)
    ensures FixWith(n, ms, input).Ok? <==> SourcesPresent(ms, input)
    ensures FixWith(n, ms, input).Ok? ==>
      && FixWith(n, ms, input).value.columns == FixedColumns(ms)
      && |FixWith(n, ms, input).value.rows| == |input.rows|
  {
    var r := MapFrame(ms, input);
    if r.Ok? {
      var mapped := r.value;
      var withUser :=
        if "username" in mapped.columns then mapped
        else WithColumn(mapped, "username", Broadcast(|mapped.rows|, Null));
      assert withUser.columns == FixedColumns(ms);
      assert "profileUrl" in withUser.columns;
    }
  }

  /** The `profileUrl` column of a fixed frame: when some user name is
      known, every cell is `generate_profile_url` of the row's rendered user
      name; otherwise every cell keeps the empty default. */
  predicate ProfileColumnRebuilt(n: Network, out: Frame) {
    && WellFormed(out)
    && "username" in out.columns && "profileUrl" in out.columns
    && ((exists k | 0 <= k < |out.rows| :: out.rows[k]["username"] != Null) ==>
          forall k | 0 <= k < |out.rows| ::
            out.rows[k]["profileUrl"] == Text(ProfileUrl(n, Render(out.rows[k]["username"]))))
    && ((forall k | 0 <= k < |out.rows| :: out.rows[k]["username"] == Null) ==>
          forall k | 0 <= k < |out.rows| :: out.rows[k]["profileUrl"] == Text(""))
  }

  lemma FixWithProfileUrl(n: Network, ms: seq<ColumnMapping>, input: Frame, j: nat)
    requires WellFormed(input) && UsableTable(ms) && FixWith(n, ms, input).Ok?
    requires j < |ms| && ms[j] == ColumnMapping("", "profileUrl", Text(""))
    ensures ProfileColumnRebuilt(n, FixWith(n, ms, input).value)
  {
    var mapped := MapFrame(ms, input).value;
    var withUser :=
      if "username" in mapped.columns then mapped
      else WithColumn(mapped, "username", Broadcast(|mapped.rows|, Null));
    forall k | 0 <= k < |withUser.rows| ensures withUser.rows[k]["profileUrl"] == Text("") {
      assert mapped.rows[k]["profileUrl"] == MappedCell(ms[j], input, k);
    }
  }

  /** The `profileUrl` entry of each table is a defaulted empty string. */
  lemma ProfileUrlDefault(n: Network) returns (j: nat)
    ensures j < |MappingColumns(n)|
    ensures MappingColumns(n)[j] == ColumnMapping("", "profileUrl", Text(""))
  {
    j := if n == Instagram then 15 else 20;
  }

  /** `fix_df` fails exactly when a copied column is missing; its columns
      follow the table order and always include `username`. */
  lemma FixDfColumns(n: Network, input: Frame)
    requires WellFormed(input)
    ensures FixDf(n, input).Ok? <==> SourcesPresent(MappingColumns(n), input)
    ensures FixDf(n, input).Ok? ==>
      && FixDf(n, input).value.columns == FixedColumns(MappingColumns(n))
      && "username" in FixDf(n, input).value.columns
      && |FixDf(n, input).value.rows| == |input.rows|
  {
    MappingTableShape(n);
    FixWithColumns(n, MappingColumns(n), input);
  }

  /** `profileUrl` is rebuilt from the user names when at least one is
      known, and otherwise keeps the table's empty default. */
  lemma FixDfProfileUrl(n: Network, input: Frame)
    requires WellFormed(input) && FixDf(n, input).Ok?
    ensures ProfileColumnRebuilt(n, FixDf(n, input).value)
  {
    MappingTableShape(n);
    var j := ProfileUrlDefault(n);
    assert FixDf(n, input) == FixWith(n, MappingColumns(n), input);
    FixWithProfileUrl(n, MappingColumns(n), input, j);
  }

  /** Facebook's table has no `username`, so the lenient `fix_df` adds an
      all-missing one and leaves every `profileUrl` empty. */
  lemma FacebookProfileUrlStaysEmpty(input: Frame)
    requires WellFormed(input) && FixDf(Facebook, input).Ok?
    ensures var out := FixDf(Facebook, input).value;
      forall k | 0 <= k < |out.rows| ::
        "profileUrl" in out.rows[k] && out.rows[k]["profileUrl"] == Text("")
  {
    MappingTableShape(Facebook);
    UsernameTarget(Facebook);
    FixDfProfileUrl(Facebook, input);
  }

  /** The strict revision fails for every Facebook frame: either a copied
      column is missing, or the mapped frame has no `username` to read. */
  lemma StrictFixDfFailsForFacebook(input: Frame)
    requires WellFormed(input)
    ensures FixDfStrict(Facebook, input).Err?
  {
    MappingTableShape(Facebook);
    UsernameTarget(Facebook);
  }

  /** The lenient revision fixes every Facebook frame whose copied columns
      exist, and the result has a `username` column. */
  lemma FixDfSucceedsForFacebook(input: Frame)
    requires WellFormed(input) && SourcesPresent(MappingColumns(Facebook), input)
    ensures FixDf(Facebook, input).Ok?
    ensures "username" in FixDf(Facebook, input).value.columns
  {
    FixDfColumns(Facebook, input);
  }
}
