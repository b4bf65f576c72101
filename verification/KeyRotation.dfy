/**
 rotate_encryption_key: select under the old key, rewrite under the new one, row
 by row, in a process that may be killed between any two rows.
 */
module KeyRotation {
  import opened Options
  import opened EncryptedField

  /** The two encrypted columns of an endpoint row. */
  datatype Columns = Columns(secret: Option<string>, previous: Option<string>)

  // ----- the specification

  /** Loading a column under a valid key. */
  function Load(c: Cipher, key: nat, column: Option<string>): Option<string> {
    FromDbValue(c, Some(Fernet(key)), column).value
  }

  function Save(c: Cipher, key: nat, value: Option<string>, noise: nat): Option<string> {
    GetPrepValue(c, Some(Fernet(key)), value, noise).value
  }

  function LoadRow(c: Cipher, key: nat, row: Columns): Columns {
    Columns(Load(c, key, row.secret), Load(c, key, row.previous))
  }

  predicate Selected(c: Cipher, from: nat, row: Columns) {
    !Blank(Load(c, from, row.secret)) || !Blank(Load(c, from, row.previous))
  }

  /** Neither column says anything under this key. */
  predicate Silent(c: Cipher, key: nat, row: Columns) {
    Load(c, key, row.secret) in {None, Some("")} && Load(c, key, row.previous) in {None, Some("")}
  }

  /** Those of the first n rows in which some column says something under this key. */
  function SecretRows(c: Cipher, key: nat, rows: seq<Columns>, n: nat): set<nat>
    requires n <= |rows|
  {
    set i: nat | i < n && !Silent(c, key, rows[i])
  }

  /** A selected row, written back under the new key. */
  function Rewritten(c: Cipher, from: nat, to: nat, row: Columns, noise: nat): Columns {
    var loaded := LoadRow(c, from, row);
    Columns(Save(c, to, loaded.secret, noise), Save(c, to, loaded.previous, noise + 1))
  }

  /** How many of the first n rows are selected. */
  function Rank(c: Cipher, from: nat, rows: seq<Columns>, n: nat): nat
    requires n <= |rows|
  {
    if n == 0 then 0 else Rank(c, from, rows, n - 1) + if Selected(c, from, rows[n - 1]) then 1 else 0
  }

  lemma {:induction false} RankCounts(c: Cipher, from: nat, rows: seq<Columns>, n: nat)
    requires n <= |rows|
    ensures Rank(c, from, rows, n) == |SecretRows(c, from, rows, n)|
  {
    hide Silent, Selected;
    if n > 0 {
      RankCounts(c, from, rows, n - 1);
      SelectedIff(c, from, rows[n - 1]);
      var before := SecretRows(c, from, rows, n - 1);
      assert SecretRows(c, from, rows, n) == before + if Silent(c, from, rows[n - 1]) then {} else {n - 1};
    }
  }

  lemma SelectedIff(c: Cipher, from: nat, row: Columns)
    ensures Selected(c, from, row) <==> !Silent(c, from, row)
  {}

  predicate Reached(c: Cipher, from: nat, rows: seq<Columns>, saves: nat, i: nat)
    requires i < |rows|
  {
    Selected(c, from, rows[i]) && Rank(c, from, rows, i) < saves
  }

  /** The table after that many saves; `noise` is the run's randomness, by row. */
  function Rotated(c: Cipher, from: nat, to: nat, rows: seq<Columns>, saves: nat,
                   noise: nat -> nat): (out: seq<Columns>)
    ensures |out| == |rows|
  {
    seq(|rows|, i requires 0 <= i < |rows| =>
      if Reached(c, from, rows, saves, i) then Rewritten(c, from, to, rows[i], noise(i)) else rows[i])
  }

  // ----- the command

  class Settings {
    var encryptionKey: Option<Key>

    constructor (key: Option<Key>)
      ensures encryptionKey == key
    {
      encryptionKey := key;
    }
  }

  class Table {
    var rows: seq<Columns>

    constructor (rows: seq<Columns>)
      ensures this.rows == rows
    {
      this.rows := rows;
    }
  }

  /** A loaded model instance. */
  datatype Endpoint = Endpoint(pk: nat, columns: Columns)

  datatype Report = InvalidKey | DryRun(count: nat) | Reencrypted(count: nat) | Killed | SaveRaised

  /** How the save loop ends: all saved, killed, or by an exception of a save. */
  datatype LoopEnd = AllSaved | Died | Raised

  /** The save numbers at which the process is killed, or a save raises; late enough means never. */
  datatype Fate = Fate(lifetime: nat, failing: nat)

  function SavesMade(fate: Fate): nat {
    if fate.lifetime <= fate.failing then fate.lifetime else fate.failing
  }

  function EndOf(fate: Fate, count: nat): LoopEnd {
    if SavesMade(fate) >= count then AllSaved else if fate.lifetime <= fate.failing then Died else Raised
  }

  /** The selected rows among the first n, as loaded under the old key. */
  function Work(c: Cipher, from: nat, rows: seq<Columns>, n: nat): (work: seq<Endpoint>)
    requires n <= |rows|
    ensures |work| == Rank(c, from, rows, n)
    ensures forall e :: e in work ==>
        e.pk < n && Selected(c, from, rows[e.pk]) && e.columns == LoadRow(c, from, rows[e.pk])
  {
    if n == 0 then []
    else
      var before := Work(c, from, rows, n - 1);
      if Selected(c, from, rows[n - 1]) then before + [Endpoint(n - 1, LoadRow(c, from, rows[n - 1]))] else before
  }

  /** The work list holds exactly the rows with a secret, each once, in the table's order, as the old key reads them. */
  ghost predicate Lists(c: Cipher, from: nat, rows: seq<Columns>, work: seq<Endpoint>) {
    && (forall e :: e in work ==>
          && e.pk < |rows| && !Silent(c, from, rows[e.pk])
          && e.columns == Columns(Load(c, from, rows[e.pk].secret), Load(c, from, rows[e.pk].previous)))
    && (forall i: nat :: i < |rows| && !Silent(c, from, rows[i]) ==> exists e :: e in work && e.pk == i)
    && Ascending(work)
  }

  ghost predicate Ascending(work: seq<Endpoint>) {
    forall j, k :: 0 <= j < k < |work| ==> work[j].pk < work[k].pk
  }

  lemma WorkLists(c: Cipher, from: nat, rows: seq<Columns>)
    ensures Lists(c, from, rows, Work(c, from, rows, |rows|))
  {
    WorkAscends(c, from, rows, |rows|);
    forall i: nat | i < |rows| && !Silent(c, from, rows[i])
      ensures exists e :: e in Work(c, from, rows, |rows|) && e.pk == i
    {
      WorkFinds(c, from, rows, |rows|, i);
    }
  }

  lemma {:induction false} WorkAscends(c: Cipher, from: nat, rows: seq<Columns>, n: nat)
    requires n <= |rows|
    ensures Ascending(Work(c, from, rows, n))
  {
    hide Selected, LoadRow;
    if n > 0 {
      WorkAscends(c, from, rows, n - 1);
    }
  }

  lemma {:induction false} WorkFinds(c: Cipher, from: nat, rows: seq<Columns>, n: nat, i: nat)
    requires i < n <= |rows| && Selected(c, from, rows[i])
    ensures Endpoint(i, LoadRow(c, from, rows[i])) in Work(c, from, rows, n)
  {
    hide Selected, LoadRow;
    if i < n - 1 {
      WorkFinds(c, from, rows, n - 1, i);
    }
  }

  lemma {:induction false} WorkIsRanked(c: Cipher, from: nat, rows: seq<Columns>, n: nat, k: nat)
    requires n <= |rows| && k < Rank(c, from, rows, n)
    ensures Rank(c, from, rows, Work(c, from, rows, n)[k].pk) == k
  {
    if k < Rank(c, from, rows, n - 1) {
      WorkIsRanked(c, from, rows, n - 1, k);
    }
  }

  lemma {:induction false} RankGrows(c: Cipher, from: nat, rows: seq<Columns>, i: nat, n: nat)
    requires i < n <= |rows|
    ensures Rank(c, from, rows, i) + (if Selected(c, from, rows[i]) then 1 else 0) <= Rank(c, from, rows, n)
  {
    if i < n - 1 {
      RankGrows(c, from, rows, i, n - 1);
    }
  }

  /** One save more is the next row of the work list. */
  lemma NextSave(c: Cipher, from: nat, to: nat, rows: seq<Columns>, saves: nat, noise: nat -> nat)
    requires saves < Rank(c, from, rows, |rows|)
    ensures var pk := Work(c, from, rows, |rows|)[saves].pk;
            Rotated(c, from, to, rows, saves + 1, noise)
              == Rotated(c, from, to, rows, saves, noise)[pk := Rewritten(c, from, to, rows[pk], noise(pk))]
  {
    var work := Work(c, from, rows, |rows|);
    var pk := work[saves].pk;
    assert work[saves] in work;
    WorkIsRanked(c, from, rows, |rows|, saves);
    forall i: nat | i < |rows| && i != pk
      ensures Reached(c, from, rows, saves + 1, i) <==> Reached(c, from, rows, saves, i)
    {
      if i < pk {
        RankGrows(c, from, rows, i, pk);
      } else {
        RankGrows(c, from, rows, pk, i);
      }
    }
  }

  /**
   Command.handle, in a process that may be killed at some save, and with saves
   that may raise. Invalid keys and dry runs write nothing; a save that raises
   leaves its row as it was and ends the command; the key setting is put back
   whenever the process survives.
   */
  method Handle(c: Cipher, settings: Settings, table: Table, oldKey: Key, newKey: Key, dryRun: bool, fate: Fate,
                noise: nat -> nat)
    returns (report: Report)
    modifies settings, table
    ensures (oldKey.Malformed? || newKey.Malformed?) <==> report == InvalidKey
    ensures report.InvalidKey? || dryRun ==> table.rows == old(table.rows)
    ensures report != Killed ==> settings.encryptionKey == old(settings.encryptionKey)
    ensures !report.InvalidKey? ==>
              var count := |SecretRows(c, oldKey.id, old(table.rows), |old(table.rows)|)|;
              && report == (if dryRun then DryRun(count)
                            else if fate.lifetime >= count && fate.failing >= count then Reencrypted(count)
                            else if fate.lifetime <= fate.failing then Killed
                            else SaveRaised)
              && (!dryRun ==>
                    table.rows == Rotated(c, oldKey.id, newKey.id, old(table.rows),
                                          if fate.lifetime <= fate.failing then fate.lifetime else fate.failing, noise))
  {
    if oldKey.Malformed? || newKey.Malformed? {
      return InvalidKey;
    }
    var previous := settings.encryptionKey;
    settings.encryptionKey := Some(oldKey);
    var endpoints := SelectEndpoints(c, settings, table, oldKey.id);
    settings.encryptionKey := previous;
    RankCounts(c, oldKey.id, table.rows, |table.rows|);
    if dryRun {
      return DryRun(|endpoints|);
    }
    settings.encryptionKey := Some(newKey);
    var end := SaveEndpoints(c, settings, table, endpoints, oldKey.id, newKey.id, fate, noise);
    if end == Died {
      return Killed;
    }
    settings.encryptionKey := previous;
    return if end == Raised then SaveRaised else Reencrypted(|endpoints|);
  }

  method SelectEndpoints(c: Cipher, settings: Settings, table: Table, ghost from: nat)
      returns (endpoints: seq<Endpoint>)
    requires settings.encryptionKey == Some(Fernet(from))
    ensures endpoints == Work(c, from, table.rows, |table.rows|)
    ensures Lists(c, from, table.rows, endpoints)
  {
    endpoints := [];
    var pk := 0;
    while pk < |table.rows|
      invariant 0 <= pk <= |table.rows|
      invariant endpoints == Work(c, from, table.rows, pk)
    {
      var secret := FromDbValue(c, settings.encryptionKey, table.rows[pk].secret).value;
      var previous := FromDbValue(c, settings.encryptionKey, table.rows[pk].previous).value;
      if !Blank(secret) || !Blank(previous) {
        endpoints := endpoints + [Endpoint(pk, Columns(secret, previous))];
      }
      pk := pk + 1;
    }
    WorkLists(c, from, table.rows);
  }

  method SaveEndpoints(c: Cipher, settings: Settings, table: Table, endpoints: seq<Endpoint>,
                       ghost from: nat, ghost to: nat, fate: Fate, noise: nat -> nat) returns (end: LoopEnd)
    requires settings.encryptionKey == Some(Fernet(to))
    requires endpoints == Work(c, from, table.rows, |table.rows|)
    modifies table
    ensures end == EndOf(fate, |endpoints|)
    ensures table.rows == Rotated(c, from, to, old(table.rows), SavesMade(fate), noise)
  {
    ghost var rows := table.rows;
    NothingSaved(c, from, to, rows, noise);
    var saves := 0;
    while saves < |endpoints|
      invariant 0 <= saves <= |endpoints| && saves <= SavesMade(fate)
      invariant table.rows == Rotated(c, from, to, rows, saves, noise)
    {
      if saves == fate.lifetime {
        return Died;
      }
      if saves == fate.failing {
        return Raised;
      }
      var e := endpoints[saves];
      assert e in endpoints;
      NextSave(c, from, to, rows, saves, noise);
      var secret := GetPrepValue(c, settings.encryptionKey, e.columns.secret, noise(e.pk)).value;
      var previous := GetPrepValue(c, settings.encryptionKey, e.columns.previous, noise(e.pk) + 1).value;
      table.rows := table.rows[e.pk := Columns(secret, previous)];
      saves := saves + 1;
    }
    NoMoreToSave(c, from, to, rows, saves, SavesMade(fate), noise);
    return AllSaved;
  }

  lemma NothingSaved(c: Cipher, from: nat, to: nat, rows: seq<Columns>, noise: nat -> nat)
    ensures Rotated(c, from, to, rows, 0, noise) == rows
  {
    var out := Rotated(c, from, to, rows, 0, noise);
    forall i: nat | i < |rows| ensures out[i] == rows[i] {
      assert !Reached(c, from, rows, 0, i);
    }
  }

  /** Saves beyond the work list change nothing. */
  lemma NoMoreToSave(c: Cipher, from: nat, to: nat, rows: seq<Columns>, saves: nat, more: nat, noise: nat -> nat)
    requires Rank(c, from, rows, |rows|) <= saves <= more
    ensures Rotated(c, from, to, rows, saves, noise) == Rotated(c, from, to, rows, more, noise)
  {
    forall i: nat | i < |rows| ensures Reached(c, from, rows, saves, i) <==> Reached(c, from, rows, more, i) {
      RankGrows(c, from, rows, i, |rows|);
    }
  }
}

/** What a rotation, killed and restarted any number of times, does to the secrets. */
module RotationRestarts {
  import opened Options
  import opened EncryptedField
  import opened KeyRotation

  /** The column is blank, or says something under this key that could have been saved. */
  predicate Readable(c: Cipher, key: nat, column: Option<string>) {
    Blank(column) || (!Blank(Load(c, key, column)) && !HasPrefix(Load(c, key, column).value))
  }

  predicate ReadableRow(c: Cipher, key: nat, row: Columns) {
    Readable(c, key, row.secret) && Readable(c, key, row.previous)
  }

  /** One key reads the whole row: the old one, or else the new one. */
  predicate Whole(c: Cipher, from: nat, to: nat, row: Columns) {
    ReadableRow(c, from, row) || (Silent(c, from, row) && ReadableRow(c, to, row))
  }

  /** The secrets of a row, under whichever key it is. */
  function Meaning(c: Cipher, from: nat, to: nat, row: Columns): Columns {
    LoadRow(c, if ReadableRow(c, from, row) then from else to, row)
  }

  lemma ColumnRotates(c: Cipher, from: nat, to: nat, column: Option<string>, noise: nat)
    requires Lawful(c) && from != to && Readable(c, from, column)
    ensures var saved := Save(c, to, Load(c, from, column), noise);
            && Load(c, to, saved) == Load(c, from, column)
            && Blank(Load(c, from, saved))
            && Readable(c, to, saved)
  {
    if !Blank(column) {
      RoundTripIff(c, to, Load(c, from, column), noise);
      WrongKeyReadsEmpty(c, to, from, Load(c, from, column), noise);
    }
  }

  /** Rotating a whole row moves it to the new key, and it says the same. */
  lemma RowRotates(c: Cipher, from: nat, to: nat, row: Columns, noise: nat)
    requires Lawful(c) && from != to && !Silent(c, from, row) && Whole(c, from, to, row)
    ensures var after := Rewritten(c, from, to, row, noise);
            Silent(c, from, after) && ReadableRow(c, to, after) && LoadRow(c, to, after) == Meaning(c, from, to, row)
  {
    ColumnRotates(c, from, to, row.secret, noise);
    ColumnRotates(c, from, to, row.previous, noise + 1);
  }

  /** One run of the command: it makes that many saves, if there are so many to make. */
  datatype Run = Run(lifetime: nat, noise: nat -> nat)

  /** The table after these runs, one after the other, with the same keys. */
  function AfterRuns(c: Cipher, from: nat, to: nat, rows: seq<Columns>, runs: seq<Run>): (out: seq<Columns>)
    ensures |out| == |rows|
    decreases |runs|
  {
    if runs == [] then rows
    else AfterRuns(c, from, to, Rotated(c, from, to, rows, runs[0].lifetime, runs[0].noise), runs[1..])
  }

  ghost predicate AllWhole(c: Cipher, from: nat, to: nat, rows: seq<Columns>) {
    forall i :: 0 <= i < |rows| ==> Whole(c, from, to, rows[i])
  }

  /**
   Wherever the runs are killed: every row is readable under one of the keys and
   says what it said, and moved rows stay.
   */
  lemma {:induction false} RunsKeepSecrets(c: Cipher, from: nat, to: nat, rows: seq<Columns>, runs: seq<Run>)
    requires Lawful(c) && from != to && AllWhole(c, from, to, rows)
    ensures var out := AfterRuns(c, from, to, rows, runs);
            && AllWhole(c, from, to, out)
            && forall i :: 0 <= i < |rows| ==>
                 && Meaning(c, from, to, out[i]) == Meaning(c, from, to, rows[i])
                 && (Silent(c, from, rows[i]) ==> out[i] == rows[i])
    decreases |runs|
  {
    if runs != [] {
      var next := Rotated(c, from, to, rows, runs[0].lifetime, runs[0].noise);
      OneRunKeepsSecrets(c, from, to, rows, runs[0]);
      RunsKeepSecrets(c, from, to, next, runs[1..]);
    }
  }

  lemma OneRunKeepsSecrets(c: Cipher, from: nat, to: nat, rows: seq<Columns>, run: Run)
    requires Lawful(c) && from != to && AllWhole(c, from, to, rows)
    ensures var out := Rotated(c, from, to, rows, run.lifetime, run.noise);
            && AllWhole(c, from, to, out)
            && forall i :: 0 <= i < |rows| ==>
                 && Meaning(c, from, to, out[i]) == Meaning(c, from, to, rows[i])
                 && (Silent(c, from, rows[i]) ==> out[i] == rows[i])
                 && (Reached(c, from, rows, run.lifetime, i) ==> Silent(c, from, out[i]))
  {
    forall i | 0 <= i < |rows| && Reached(c, from, rows, run.lifetime, i)
      ensures var row := Rotated(c, from, to, rows, run.lifetime, run.noise)[i];
              Silent(c, from, row) && ReadableRow(c, to, row) && LoadRow(c, to, row) == Meaning(c, from, to, rows[i])
    {
      RowRotates(c, from, to, rows[i], run.noise(i));
    }
  }

  /** A run that is not killed leaves every row under the new key. */
  lemma FullRun(c: Cipher, from: nat, to: nat, rows: seq<Columns>, noise: nat -> nat)
    requires Lawful(c) && from != to && AllWhole(c, from, to, rows)
    ensures var out := Rotated(c, from, to, rows, |rows|, noise);
            forall i :: 0 <= i < |rows| ==>
                Silent(c, from, out[i]) && LoadRow(c, to, out[i]) == Meaning(c, from, to, rows[i])
  {
    OneRunKeepsSecrets(c, from, to, rows, Run(|rows|, noise));
    forall i: nat | i < |rows| && !Silent(c, from, rows[i]) ensures Reached(c, from, rows, |rows|, i) {
      RankIsBounded(c, from, rows, i);
    }
  }

  /**
   Which rows are rewritten after that many saves: those in which the old key
   finds something, the first ones first, and no other row changes.
   */
  lemma RotatedExactly(c: Cipher, from: nat, to: nat, rows: seq<Columns>, saves: nat, noise: nat -> nat, i: nat)
    requires i < |rows|
    ensures var row, out := rows[i], Rotated(c, from, to, rows, saves, noise)[i];
            out == if !Silent(c, from, row) && |SecretRows(c, from, rows, i)| < saves
                   then Columns(Save(c, to, Load(c, from, row.secret), noise(i)),
                                Save(c, to, Load(c, from, row.previous), noise(i) + 1))
                   else row
  {
    RankCounts(c, from, rows, i);
    SelectedIff(c, from, rows[i]);
    assert Reached(c, from, rows, saves, i) <==> !Silent(c, from, rows[i]) && |SecretRows(c, from, rows, i)| < saves;
  }

  /** A run with a save for every row in which the old key finds something moves all secrets to the new key. */
  lemma CompleteRunMovesSecrets(c: Cipher, from: nat, to: nat, rows: seq<Columns>, saves: nat, noise: nat -> nat)
    requires Lawful(c) && from != to && saves >= |SecretRows(c, from, rows, |rows|)|
    requires forall i :: 0 <= i < |rows| ==> ReadableRow(c, from, rows[i])
    ensures var out := Rotated(c, from, to, rows, saves, noise);
            forall i :: 0 <= i < |rows| ==>
              && Load(c, to, out[i].secret) == Load(c, from, rows[i].secret)
              && Load(c, to, out[i].previous) == Load(c, from, rows[i].previous)
              && Silent(c, from, out[i])
  {
    RankCounts(c, from, rows, |rows|);
    RankIsBounded(c, from, rows, |rows|);
    if saves <= |rows| {
      NoMoreToSave(c, from, to, rows, saves, |rows|, noise);
    } else {
      NoMoreToSave(c, from, to, rows, |rows|, saves, noise);
    }
    FullRun(c, from, to, rows, noise);
    var out := Rotated(c, from, to, rows, saves, noise);
    forall i | 0 <= i < |rows| ensures LoadRow(c, to, out[i]) == LoadRow(c, from, rows[i]) {
      assert Meaning(c, from, to, rows[i]) == LoadRow(c, from, rows[i]);
    }
  }

  lemma {:induction false} RankIsBounded(c: Cipher, from: nat, rows: seq<Columns>, n: nat)
    requires n <= |rows|
    ensures Rank(c, from, rows, n) <= n
  {
    if n > 0 {
      RankIsBounded(c, from, rows, n - 1);
    }
  }

  /**
   Kill the command any number of times, after any numbers of rows, and then run
   it to the end with the same keys: the new key reads the same secrets as after
   one uninterrupted run, and as before; the last run leaves rows already moved alone.
   */
  lemma CrashAndRestart(c: Cipher, from: nat, to: nat, rows: seq<Columns>, killed: seq<Run>, last: nat -> nat,
                        direct: nat -> nat)
    requires Lawful(c) && from != to && AllWhole(c, from, to, rows)
    ensures var between := AfterRuns(c, from, to, rows, killed);
            var restarted := Rotated(c, from, to, between, |rows|, last);
            var uninterrupted := Rotated(c, from, to, rows, |rows|, direct);
            forall i :: 0 <= i < |rows| ==>
              && LoadRow(c, to, restarted[i]) == LoadRow(c, to, uninterrupted[i])
              && LoadRow(c, to, restarted[i]) == LoadRow(c, if ReadableRow(c, from, rows[i]) then from else to, rows[i])
              && Silent(c, from, restarted[i])
              && (Silent(c, from, between[i]) ==> restarted[i] == between[i])
  {
    RunsKeepSecrets(c, from, to, rows, killed);
    var between := AfterRuns(c, from, to, rows, killed);
    OneRunKeepsSecrets(c, from, to, between, Run(|rows|, last));
    FullRun(c, from, to, between, last);
    FullRun(c, from, to, rows, direct);
  }

  // ----- rows that are not whole

  predicate Erased(before: Option<string>, after: Option<string>) {
    !Blank(before) && Blank(after)
  }

  /**
   A complete run erases a secret exactly if some row is selected for one column
   while the other does not open under the old key.
   */
  lemma NothingErasedIff(c: Cipher, from: nat, to: nat, rows: seq<Columns>, noise: nat -> nat)
    ensures var out := Rotated(c, from, to, rows, |rows|, noise);
            (forall i :: 0 <= i < |rows| ==>
                !Erased(rows[i].secret, out[i].secret) && !Erased(rows[i].previous, out[i].previous))
            <==>
            (forall i :: 0 <= i < |rows| && !Silent(c, from, rows[i]) ==>
               (Blank(rows[i].secret) || !Blank(Load(c, from, rows[i].secret)))
               && (Blank(rows[i].previous) || !Blank(Load(c, from, rows[i].previous))))
  {
    var out := Rotated(c, from, to, rows, |rows|, noise);
    forall i: nat | i < |rows|
      ensures Erased(rows[i].secret, out[i].secret) <==>
                !Silent(c, from, rows[i]) && !Blank(rows[i].secret) && Blank(Load(c, from, rows[i].secret))
      ensures Erased(rows[i].previous, out[i].previous) <==>
                !Silent(c, from, rows[i]) && !Blank(rows[i].previous) && Blank(Load(c, from, rows[i].previous))
    {
      RankIsBounded(c, from, rows, i);
      SavedIsBlankIff(c, to, Load(c, from, rows[i].secret), noise(i));
      SavedIsBlankIff(c, to, Load(c, from, rows[i].previous), noise(i) + 1);
    }
  }

  lemma SavedIsBlankIff(c: Cipher, to: nat, value: Option<string>, noise: nat)
    ensures Blank(Save(c, to, value, noise)) <==> Blank(value)
  {}

  /** A column that was blanked stays blank, whatever rotations with whatever keys follow. */
  lemma {:induction false} BlankStays(c: Cipher, rows: seq<Columns>, i: nat, rotations: seq<Rotation>)
    requires i < |rows| && rows[i].secret == Some("")
    ensures var out := AfterRotations(c, rows, rotations); i < |out| && out[i].secret == Some("")
    decreases |rotations|
  {
    if rotations != [] {
      var r := rotations[0];
      assert Rewritten(c, r.from, r.to, rows[i], r.run.noise(i)).secret == Some("");
      BlankStays(c, Rotated(c, r.from, r.to, rows, r.run.lifetime, r.run.noise), i, rotations[1..]);
    }
  }

  datatype Rotation = Rotation(from: nat, to: nat, run: Run)

  function AfterRotations(c: Cipher, rows: seq<Columns>, rotations: seq<Rotation>): (out: seq<Columns>)
    ensures |out| == |rows|
    decreases |rotations|
  {
    if rotations == [] then rows
    else
      var r := rotations[0];
      AfterRotations(c, Rotated(c, r.from, r.to, rows, r.run.lifetime, r.run.noise), rotations[1..])
  }

  /**
   So a row whose two secrets are under different keys loses one, no key reads it
   any more, and no further rotation brings it back.
   */
  lemma MixedRowLosesSecret(c: Cipher, from: nat, to: nat, secret: string, previous: string, noise: nat -> nat,
                            rotations: seq<Rotation>, key: nat)
    requires Lawful(c) && from != to && secret != "" && previous != "" && !HasPrefix(secret) && !HasPrefix(previous)
    ensures var row := Columns(Save(c, to, Some(secret), noise(1)), Save(c, from, Some(previous), noise(2)));
            var rotated := Rotated(c, from, to, [row], 1, noise);
            && Load(c, to, row.secret) == Some(secret)
            && rotated[0].secret == Some("")
            && Load(c, key, AfterRotations(c, rotated, rotations)[0].secret) == Some("")
  {
    var row := Columns(Save(c, to, Some(secret), noise(1)), Save(c, from, Some(previous), noise(2)));
    RoundTripIff(c, to, Some(secret), noise(1));
    RoundTripIff(c, from, Some(previous), noise(2));
    WrongKeyReadsEmpty(c, to, from, Some(secret), noise(1));
    assert Rank(c, from, [row], 0) == 0 && Reached(c, from, [row], 1, 0);
    BlankStays(c, Rotated(c, from, to, [row], 1, noise), 0, rotations);
  }
}
