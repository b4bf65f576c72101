/**
 The vocabulary of the PII path language: JSON values, dotted paths, and the
 observable view of a payload as a function from paths to cells.
 Models the path handling of openedx_webhook_relay/security.py.
 */
module PayloadPaths {
  import opened Options

  datatype Json =
    | Null
    | Bool(b: bool)
    | Num(r: real)
    | Text(s: string)
    | Array(items: seq<Json>)
    | Object(fields: map<string, Json>)

  /** Everything a path cannot enter. Paths never enter an array. */
  type Atom = j: Json | !j.Object? witness Null

  type Path = seq<string>

  /** What is seen at a path: a value that cannot be entered, or a dict. */
  datatype Cell = Leaf(v: Atom) | Node

  type View = Path -> Option<Cell>

  const META: string := "event_metadata"

  // ----- dotted strings

  /** Python's `s.split(".")`. */
  function Split(s: string): (segments: Path)
    ensures |segments| >= 1
  {
    if s == "" then [""]
    else if s[0] == '.' then [""] + Split(s[1..])
    else
      var rest := Split(s[1..]);
      [[s[0]] + rest[0]] + rest[1..]
  }

  function Join(segments: Path): string
    requires |segments| >= 1
  {
    if |segments| == 1 then segments[0] else segments[0] + "." + Join(segments[1..])
  }

  /** Characters put in front of the first segment come out in front of the joined text. */
  lemma JoinPrepend(c: char, first: string, rest: Path)
    ensures Join([[c] + first] + rest) == [c] + Join([first] + rest)
  {
    var longer, shorter := [[c] + first] + rest, [first] + rest;
    assert longer[1..] == rest == shorter[1..];
    if |rest| > 0 {
      assert ([c] + first) + "." + Join(rest) == [c] + (first + "." + Join(rest));
    }
  }

  /** Splitting loses nothing. */
  lemma {:induction false} JoinSplit(s: string)
    ensures Join(Split(s)) == s
  {
    if s != "" {
      var rest := Split(s[1..]);
      JoinSplit(s[1..]);
      assert s == [s[0]] + s[1..];
      if s[0] == '.' {
        assert ([""] + rest)[1..] == rest;
      } else {
        JoinPrepend(s[0], rest[0], rest[1..]);
        assert [rest[0]] + rest[1..] == rest;
      }
    }
  }

  /** Every path whose segments are free of dots can be written in the configuration. */
  lemma {:induction false} SplitJoin(segments: Path)
    requires |segments| >= 1
    requires forall i :: 0 <= i < |segments| ==> '.' !in segments[i]
    ensures Split(Join(segments)) == segments
    decreases |segments|, |segments[0]|
  {
    var first, rest := segments[0], segments[1..];
    assert segments == [first] + rest;
    if first == "" {
      if rest != [] {
        SplitJoin(rest);
        assert Join(segments) == "." + Join(rest);
        assert Join(segments)[1..] == Join(rest);
      }
    } else {
      var shorter := [first[1..]] + rest;
      assert first == [first[0]] + first[1..];
      assert first[0] in first;
      forall i | 0 <= i < |shorter| ensures '.' !in shorter[i] {
        assert '.' !in segments[i];
      }
      SplitJoin(shorter);
      JoinPrepend(first[0], first[1..], rest);
      assert Join(segments)[1..] == Join(shorter);
      assert shorter[1..] == rest;
    }
  }

  // ----- what one configured string points at

  /** `At(path)`: a position under a top-level key. `Touch`: a trailing-dot entry such as "data.". */
  datatype Target = At(path: Path) | Touch(key: string) | Miss

  function Nested(key: string, sub: string): Target {
    if sub == "" then Touch(key) else At([key] + Split(sub))
  }

  /**
   The branch order of apply_allowlist and apply_denylist for a payload whose
   only non-metadata key is `dataKey`.
   */
  function Resolve(path: string, dataKey: string): Target {
    if path == META then At([META])
    else if META + "." <= path then Nested(META, path[|META| + 1..])
    else if path == "data" then if dataKey == "" then Miss else At([dataKey])
    else if "data." <= path then if dataKey == "" then Miss else Nested(dataKey, path[5..])
    else if path == dataKey then At([dataKey])
    else if dataKey + "." <= path then Nested(dataKey, path[|dataKey| + 1..])
    else Miss
  }

  function ResolveAll(paths: seq<string>, dataKey: string): (ts: seq<Target>)
    ensures |ts| == |paths|
    ensures forall i :: 0 <= i < |ts| ==> ts[i] == Resolve(paths[i], dataKey)
  {
    seq(|paths|, i requires 0 <= i < |paths| => Resolve(paths[i], dataKey))
  }

  /** Targets point below the root, which the source guarantees by construction. */
  lemma ResolveIsBelowRoot(path: string, dataKey: string)
    ensures Resolve(path, dataKey).At? ==> |Resolve(path, dataKey).path| >= 1
    ensures Resolve(path, dataKey).At? ==> Resolve(path, dataKey).path[0] in {META, dataKey}
    ensures Resolve(path, dataKey).Touch? ==> Resolve(path, dataKey).key in {META, dataKey}
  {}

  /**
   The `data` alias and the literal key name the same position, so an operator
   may write either, unless the literal key itself starts like an alias.
   */
  lemma AliasAgrees(sub: string, dataKey: string)
    requires dataKey != "" && dataKey != META
    requires !("data." <= dataKey) && !(META + "." <= dataKey)
    ensures Resolve("data." + sub, dataKey) == Resolve(dataKey + "." + sub, dataKey) == Nested(dataKey, sub)
    ensures Resolve("data", dataKey) == Resolve(dataKey, dataKey) == At([dataKey])
  {
    var alias, long := "data." + sub, dataKey + "." + sub;
    assert alias[5..] == sub && long[|dataKey| + 1..] == sub;
    assert META[0] == 'e' && alias[0] == 'd';
    assert '.' !in META;
    assert long[|dataKey|] == '.' && long[..|dataKey|] == dataKey;
    assert !(META + "." <= long) && long != META && long != "data";
    assert "data." <= long ==> dataKey == "data";
  }

  // ----- the configuration language, as an operator writes it

  /** The literal data key cannot be mistaken for an alias. */
  predicate Plain(dataKey: string) {
    !("data." <= dataKey) && !("event_metadata." <= dataKey) && dataKey != "event_metadata"
  }

  /** The entry stands for a whole top-level key. */
  predicate SpellsKey(entry: string, dataKey: string, key: string) {
    || (entry == "event_metadata" && key == "event_metadata")
    || (entry == "data" && key == dataKey && dataKey != "")
    || (entry == dataKey && key == dataKey && Plain(dataKey))
  }

  /** The entry stands for the dotted path `sub` below a top-level key. */
  predicate Spells(entry: string, dataKey: string, key: string, sub: string) {
    || (entry == "event_metadata." + sub && key == "event_metadata")
    || (entry == "data." + sub && key == dataKey && dataKey != "")
    || (entry == dataKey + "." + sub && key == dataKey && Plain(dataKey))
  }

  /** The entry names this position. */
  ghost predicate Names(entry: string, dataKey: string, p: Path) {
    || (exists key :: SpellsKey(entry, dataKey, key) && p == [key])
    || (exists key, sub :: Spells(entry, dataKey, key, sub) && sub != "" && p == [key] + Split(sub))
  }

  /** Entries for the metadata, for the data under its alias, and for the data under its own key. */
  lemma SpelledKey(entry: string, dataKey: string, key: string)
    requires SpellsKey(entry, dataKey, key)
    ensures Resolve(entry, dataKey) == At([key])
  {}

  lemma SpelledPath(entry: string, dataKey: string, key: string, sub: string)
    requires Spells(entry, dataKey, key, sub)
    ensures Resolve(entry, dataKey) == if sub == "" then Touch(key) else At([key] + Split(sub))
  {
    assert META == "event_metadata" && META + "." == "event_metadata.";
    assert "event_metadata."[0] == 'e' && "data."[0] == 'd';
    if entry == "event_metadata." + sub && key == "event_metadata" {
      assert entry[|META| + 1..] == sub && |entry| > |META|;
    } else if entry == "data." + sub && key == dataKey && dataKey != "" {
      assert entry[5..] == sub && entry[0] == 'd' && |entry| >= 5;
    } else {
      LiteralPath(dataKey, sub);
    }
  }

  lemma LiteralPath(dataKey: string, sub: string)
    requires Plain(dataKey)
    ensures Resolve(dataKey + "." + sub, dataKey) == Nested(dataKey, sub)
  {
    var long := dataKey + "." + sub;
    if dataKey != "" {
      AliasAgrees(sub, dataKey);
    } else {
      assert long[0] == '.' && META[0] == 'e' && long[1..] == sub;
      assert (META + ".")[0] == 'e' && "data."[0] == 'd' && "data"[0] == 'd';
      assert "" + "." <= long;
    }
  }

  /** Both directions: the entry points at a position exactly if it names it, and no other string matches anything. */
  lemma EntryNames(entry: string, dataKey: string, p: Path)
    requires dataKey != META
    ensures Resolve(entry, dataKey) == At(p) <==> Names(entry, dataKey, p)
    ensures forall key :: Resolve(entry, dataKey) == Touch(key) <==> Spells(entry, dataKey, key, "")
  {
    SomeSpelling(entry, dataKey);
    forall key | SpellsKey(entry, dataKey, key) ensures Resolve(entry, dataKey) == At([key]) {
      SpelledKey(entry, dataKey, key);
    }
    forall key, sub | Spells(entry, dataKey, key, sub)
      ensures Resolve(entry, dataKey) == if sub == "" then Touch(key) else At([key] + Split(sub))
    {
      SpelledPath(entry, dataKey, key, sub);
    }
  }

  /** Whatever matches is spelled. */
  lemma SomeSpelling(entry: string, dataKey: string)
    requires dataKey != META
    ensures Resolve(entry, dataKey) != Miss ==>
              || (exists key :: SpellsKey(entry, dataKey, key))
              || (exists key, sub :: Spells(entry, dataKey, key, sub))
  {
    assert META == "event_metadata" && META + "." == "event_metadata.";
    if entry == META {
      assert SpellsKey(entry, dataKey, META);
    } else if META + "." <= entry {
      assert entry == "event_metadata." + entry[|META| + 1..];
      assert Spells(entry, dataKey, META, entry[|META| + 1..]);
    } else if entry == "data" {
      assert dataKey != "" ==> SpellsKey(entry, dataKey, dataKey);
    } else if "data." <= entry {
      assert entry == "data." + entry[5..];
      assert dataKey != "" ==> Spells(entry, dataKey, dataKey, entry[5..]);
    } else if entry == dataKey {
      assert Plain(dataKey) && SpellsKey(entry, dataKey, dataKey);
    } else if dataKey + "." <= entry {
      var sub := entry[|dataKey| + 1..];
      assert entry == dataKey + "." + sub;
      assert dataKey <= entry;
      assert "data." <= dataKey ==> "data." <= entry;
      assert "event_metadata." <= dataKey ==> "event_metadata." <= entry;
      assert Plain(dataKey) && Spells(entry, dataKey, dataKey, sub);
    }
  }
}
