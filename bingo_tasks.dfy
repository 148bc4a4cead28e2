/** The task pools of utils/bingoTasks.js: the task list is read once into
    buckets by category and by game, and only buckets with at least 25 tasks
    are offered as pools. The task list is given as data. */
module BingoTasks {

  import opened Wrappers
  import opened Js

  const MinPoolSize: nat := 25

  /** A field of a task record as read from JSON: `undefined`/`null`, a
      string, an integer or a boolean. */
  datatype Raw = Missing | Text(s: string) | Integer(n: int) | Flag(b: bool)

  datatype RawTask = RawTask(id: Raw, task: Raw, category: Raw, game: Raw)

  /** An entry of `tasksById`. */
  datatype Entry = Entry(id: string, text: string, category: string, game: string)

  /** A bucket: its key, its title and its task ids in insertion order (a `Set`). */
  datatype Bucket = Bucket(value: string, title: string, taskIds: seq<string>)

  datatype Meta = Meta(value: string, title: string, count: nat)

  // ---------------------------------------------------------------- string normalisation

  /** `String(value)`. */
  function RawString(v: Raw): string {
    match v
    case Missing => ""
    case Text(s) => s
    case Integer(n) => IntToString(n)
    case Flag(b) => if b then "true" else "false"
  }

  /** `sanitizeValue(value)`: `''` for a missing value, otherwise its string
      form without the white space at either end (`TrimDropsOnlyWhite` says
      that `Trim` removes that and nothing else). */
  function SanitizeValue(v: Raw): (r: string)
    ensures v.Missing? ==> r == ""
    ensures !v.Missing? ==> r == Trim(RawString(v))
    ensures r != [] ==> !IsWhite(r[0]) && !IsWhite(r[|r| - 1])
  {
    if v.Missing? then "" else Trim(RawString(v))
  }

  /** A present value sanitises to one stretch of its string form, with only
      white space cut off around it. */
  lemma SanitizeKeepsText(v: Raw)
    requires !v.Missing?
    ensures var s := RawString(v);
            var r := SanitizeValue(v);
            var i := |s| - |TrimStart(s)|;
            i + |r| <= |s| && r == s[i..i + |r|] &&
            (forall k :: 0 <= k < i ==> IsWhite(s[k])) && (forall k :: i + |r| <= k < |s| ==> IsWhite(s[k]))
  {
    TrimDropsOnlyWhite(RawString(v));
  }

  /** A sanitised value is its own sanitisation. */
  lemma SanitizeIdempotent(v: Raw)
    ensures SanitizeValue(Text(SanitizeValue(v))) == SanitizeValue(v)
  {
    TrimIdempotent(RawString(v));
  }

  /** `formatTaskText(task)`, given `task.task`: the trimmed text when it is a
      string with something besides white space, `null` otherwise. */
  function FormatTaskText(task: Raw): (r: Option<string>)
    ensures r.Some? <==> task.Text? && Trim(task.s) != ""
    ensures r.Some? ==> r.value == Trim(task.s) && !IsWhite(r.value[0]) && !IsWhite(r.value[|r.value| - 1])
  {
    if task.Text? && Trim(task.s) != "" then Some(Trim(task.s)) else None
  }

  predicate IsDash(ch: char) { ch == '_' || ch == '-' }

  /** `s` without its leading run of `_` and `-`. */
  function SkipDashes(s: string): (r: string)
    ensures |r| <= |s|
    ensures s != [] && IsDash(s[0]) ==> |r| < |s|
    ensures r != [] ==> !IsDash(r[0])
  {
    if s != [] && IsDash(s[0]) then SkipDashes(s[1..]) else s
  }

  /** `value.replace(/[_-]+/g, ' ')`. */
  function Collapse(s: string): (r: string)
    ensures forall k :: 0 <= k < |r| ==> !IsDash(r[k])
    decreases |s|
  {
    if s == [] then []
    else if IsDash(s[0]) then " " + Collapse(SkipDashes(s))
    else [s[0]] + Collapse(s[1..])
  }

  /** Text without `_` or `-` is left as it is by the replace. */
  lemma {:induction false} CollapseDashFree(w: string)
    requires forall k :: 0 <= k < |w| ==> !IsDash(w[k])
    ensures Collapse(w) == w
    decreases |w|
  {
    if w != [] {
      CollapseDashFree(w[1..]);
    }
  }

  /** A run of `_` and `-` is skipped up to the first other character. */
  lemma {:induction false} SkipRun(run: string, rest: string)
    requires forall k :: 0 <= k < |run| ==> IsDash(run[k])
    requires rest == [] || !IsDash(rest[0])
    ensures SkipDashes(run + rest) == rest
    decreases |run|
  {
    if run != [] {
      assert (run + rest)[1..] == run[1..] + rest;
      SkipRun(run[1..], rest);
    }
  }

  /** A maximal run of `_` and `-` becomes exactly one space, and the text
      before it is kept: with `CollapseDashFree` this fixes `Collapse` on
      every string, piece by piece. */
  lemma {:induction false} CollapseRun(w: string, run: string, rest: string)
    requires forall k :: 0 <= k < |w| ==> !IsDash(w[k])
    requires run != [] && forall k :: 0 <= k < |run| ==> IsDash(run[k])
    requires rest == [] || !IsDash(rest[0])
    ensures Collapse(w + run + rest) == w + " " + Collapse(rest)
    decreases |w|
  {
    if w == [] {
      assert w + run + rest == run + rest;
      SkipRun(run, rest);
    } else {
      assert (w + run + rest)[1..] == w[1..] + run + rest;
      CollapseRun(w[1..], run, rest);
      assert w == [w[0]] + w[1..];
    }
  }

  /** `.filter(Boolean)` on strings. */
  function NonEmpty(words: seq<string>): (r: seq<string>)
    ensures forall k :: 0 <= k < |r| ==> r[k] != "" && r[k] in words
  {
    if words == [] then []
    else (if words[0] == "" then [] else [words[0]]) + NonEmpty(words[1..])
  }

  /** `word.charAt(0).toUpperCase() + word.slice(1)`. */
  function Capitalize(w: string): string {
    if w == "" then "" else [UpperChar(w[0])] + w[1..]
  }

  function CapitalizeAll(words: seq<string>): (r: seq<string>)
    ensures |r| == |words| && forall k :: 0 <= k < |words| ==> r[k] == Capitalize(words[k])
  {
    if words == [] then [] else [Capitalize(words[0])] + CapitalizeAll(words[1..])
  }

  /** A word of a title: not empty, free of spaces and dashes, and starting
      with a character that upper-casing leaves alone. */
  predicate TitleWord(w: string) {
    w != "" && (forall k :: 0 <= k < |w| ==> w[k] != ' ' && !IsDash(w[k])) && UpperChar(w[0]) == w[0]
  }

  /** Words joined by single spaces: no dash, no space at either end, never
      two spaces in a row, and every word starting upper-cased. */
  predicate Titled(r: string) {
    (forall k :: 0 <= k < |r| ==> !IsDash(r[k])) &&
    (r != [] ==> r[0] != ' ' && r[|r| - 1] != ' ') &&
    (forall k :: 0 <= k < |r| - 1 ==> !(r[k] == ' ' && r[k + 1] == ' ')) &&
    (forall k :: 0 <= k < |r| && (k == 0 || r[k - 1] == ' ') ==> UpperChar(r[k]) == r[k])
  }

  lemma {:induction false} JoinTitled(words: seq<string>)
    requires forall k :: 0 <= k < |words| ==> TitleWord(words[k])
    ensures Titled(Join(words, ' '))
    ensures words != [] ==> Join(words, ' ') != [] && Join(words, ' ')[0] == words[0][0]
    decreases |words|
  {
    if |words| > 1 {
      var w, rest := words[0], Join(words[1..], ' ');
      JoinTitled(words[1..]);
      var r := Join(words, ' ');
      assert r == w + [' '] + rest;
      forall k | 0 <= k < |r| ensures !IsDash(r[k]) {
        if k > |w| { assert r[k] == rest[k - |w| - 1]; }
      }
      forall k | 0 <= k < |r| - 1 ensures !(r[k] == ' ' && r[k + 1] == ' ') {
        if k > |w| { assert r[k] == rest[k - |w| - 1] && r[k + 1] == rest[k - |w|]; }
      }
      forall k | 0 <= k < |r| && (k == 0 || r[k - 1] == ' ') ensures UpperChar(r[k]) == r[k] {
        if k > |w| + 1 {
          assert r[k] == rest[k - |w| - 1] && r[k - 1] == rest[k - |w| - 2];
        } else if k == |w| + 1 {
          assert r[k] == rest[0];
        }
      }
    }
  }

  /** A word of a split on spaces after the dashes were collapsed. */
  predicate Bare(w: string) {
    w != "" && ' ' !in w && forall j :: 0 <= j < |w| ==> !IsDash(w[j])
  }

  lemma CapitalizedWords(words: seq<string>)
    requires forall k :: 0 <= k < |words| ==> Bare(words[k])
    ensures forall k :: 0 <= k < |words| ==> TitleWord(CapitalizeAll(words)[k])
  {
    forall k | 0 <= k < |words| ensures TitleWord(CapitalizeAll(words)[k]) {
      var w := words[k];
      var c := Capitalize(w);
      assert c == [UpperChar(w[0])] + w[1..];
      forall j | 0 <= j < |c| ensures c[j] != ' ' && !IsDash(c[j]) {
        if j > 0 { assert c[j] == w[j]; } else { assert w[0] in w; }
      }
    }
  }

  /** `titleize(value)`. */
  function Titleize(value: string): string {
    if value == "" then "" else Join(CapitalizeAll(NonEmpty(Split(Collapse(value), ' '))), ' ')
  }

  /** A title is words joined by single spaces, each word capitalised, with
      every run of `_` and `-` turned into a word break. */
  lemma TitleizeTitled(value: string)
    ensures value == "" ==> Titleize(value) == ""
    ensures Titled(Titleize(value))
  {
    if value != "" {
      var words := NonEmpty(Split(Collapse(value), ' '));
      forall k | 0 <= k < |words| ensures Bare(words[k]) {
        SplitPiecesOf(Collapse(value), ' ', words[k]);
      }
      CapitalizedWords(words);
      JoinTitled(CapitalizeAll(words));
    }
  }

  /** A key written with a dash becomes a title of capitalised words. */
  lemma TitleizeExample()
    ensures Titleize("co-op") == "Co Op"
  {
    CollapseRun("co", "-", "op");
    CollapseDashFree("op");
    CoOpSplit();
    CoOpWords();
    CoOpJoin();
  }

  lemma CoOpJoin()
    ensures Join(["Co", "Op"], ' ') == "Co Op"
  {
    assert ["Co", "Op"][1..] == ["Op"];
  }

  lemma CoOpWords()
    ensures CapitalizeAll(NonEmpty(["co", "op"])) == ["Co", "Op"]
  {
    assert ["co", "op"][1..] == ["op"];
    assert NonEmpty(["op"]) == ["op"];
    assert NonEmpty(["co", "op"]) == ["co", "op"];
    assert UpperChar('c') == 'C' && UpperChar('o') == 'O';
    assert Capitalize("co") == "Co" && Capitalize("op") == "Op";
  }

  lemma CoOpSplit()
    ensures Split("co op", ' ') == ["co", "op"]
  {
    SplitNoSep("op", ' ');
    assert Split(" op", ' ') == ["", "op"];
    assert ['o'] + "" == "o" && ["", "op"][1..] == ["op"];
    assert Split("o op", ' ') == ["o", "op"];
    assert ['c'] + "o" == "co" && ["o", "op"][1..] == ["op"];
  }

  /** A piece of a split holds only characters of the split string, and never the separator. */
  lemma {:induction false} SplitPiecesOf(s: string, sep: char, piece: string)
    requires piece in Split(s, sep)
    ensures sep !in piece && forall j :: 0 <= j < |piece| ==> piece[j] in s
    decreases |s|
  {
    if s != [] {
      var rest := Split(s[1..], sep);
      if s[0] == sep {
        if piece != "" { SplitPiecesOf(s[1..], sep, piece); }
      } else if piece == [s[0]] + rest[0] {
        assert rest[0] in rest;
        SplitPiecesOf(s[1..], sep, rest[0]);
        forall j | 0 <= j < |piece| ensures piece[j] in s {
          if j > 0 { assert piece[j] == rest[0][j - 1]; assert piece[j] in s[1..]; }
        }
      } else {
        assert piece in rest[1..];
        assert piece in rest;
        SplitPiecesOf(s[1..], sep, piece);
        forall j | 0 <= j < |piece| ensures piece[j] in s { assert piece[j] in s[1..]; }
      }
    }
  }

  // ---------------------------------------------------------------- buckets

  /** `set.add(id)` on a `Set` kept in insertion order. */
  function AddId(ids: seq<string>, id: string): (r: seq<string>)
    ensures id in r && forall x :: x in r <==> x in ids || x == id
    ensures NoDup(ids) ==> NoDup(r)
    ensures id in ids ==> r == ids
  {
    if id in ids then ids else ids + [id]
  }

  /** `upsertTaskBucket(map, rawValue, taskId)`, on the map's contents. */
  function Upsert(m: map<string, Bucket>, rawValue: Raw, taskId: string): (r: map<string, Bucket>)
    ensures SanitizeValue(rawValue) == "" || taskId == "" ==> r == m
  {
    File(m, SanitizeValue(rawValue), taskId)
  }

  /** `upsertTaskBucket` once the value is sanitised. */
  function File(m: map<string, Bucket>, value: string, taskId: string): map<string, Bucket> {
    if value == "" || taskId == "" then m else Place(m, value, taskId)
  }

  /** The bucket update once the value is known to be non-empty: create the
      bucket if it is missing, then add the id to its set. */
  function Place(m: map<string, Bucket>, value: string, taskId: string): map<string, Bucket> {
    if value in m then m[value := m[value].(taskIds := AddId(m[value].taskIds, taskId))]
    else m[value := Bucket(value, Titleize(value), [taskId])]
  }

  /** Placing an id files it in the value's bucket, creating the bucket with
      the value's title when it is new, and leaves every other bucket alone. */
  lemma PlaceEffect(m: map<string, Bucket>, value: string, taskId: string)
    ensures var r := Place(m, value, taskId);
            r.Keys == m.Keys + {value} &&
            (forall k :: k in m && k != value ==> r[k] == m[k]) &&
            (forall x :: x in r[value].taskIds <==> x == taskId || (value in m && x in m[value].taskIds)) &&
            (value in m ==> r[value].value == m[value].value && r[value].title == m[value].title) &&
            (value !in m ==> r[value] == Bucket(value, Titleize(value), [taskId]))
  {
  }

  /** The same for an upsert whose value and id are not empty. */
  lemma UpsertEffect(m: map<string, Bucket>, rawValue: Raw, taskId: string)
    requires SanitizeValue(rawValue) != "" && taskId != ""
    ensures Upsert(m, rawValue, taskId) == Place(m, SanitizeValue(rawValue), taskId)
    ensures var value := SanitizeValue(rawValue);
            var r := Upsert(m, rawValue, taskId);
            r.Keys == m.Keys + {value} &&
            (forall k :: k in m && k != value ==> r[k] == m[k]) &&
            (forall x :: x in r[value].taskIds <==> x == taskId || (value in m && x in m[value].taskIds)) &&
            (value !in m ==> r[value] == Bucket(value, Titleize(value), [taskId]))
  {
    PlaceEffect(m, SanitizeValue(rawValue), taskId);
  }

  /** Adding the same task to the same bucket twice is adding it once. */
  lemma UpsertIdempotent(m: map<string, Bucket>, rawValue: Raw, taskId: string)
    ensures Upsert(Upsert(m, rawValue, taskId), rawValue, taskId) == Upsert(m, rawValue, taskId)
  {
    var value := SanitizeValue(rawValue);
    if value != "" && taskId != "" {
      PlaceTwice(m, value, taskId);
    }
  }

  lemma PlaceTwice(m: map<string, Bucket>, value: string, taskId: string)
    ensures Place(Place(m, value, taskId), value, taskId) == Place(m, value, taskId)
  {
    var r := Place(m, value, taskId);
    assert value in r && taskId in r[value].taskIds;
    assert AddId(r[value].taskIds, taskId) == r[value].taskIds;
    assert r[value].(taskIds := r[value].taskIds) == r[value];
  }

  /** Every bucket is filed under its own non-empty value, with that value's
      title as its label and no id twice. */
  predicate BucketsWellFormed(m: map<string, Bucket>) {
    forall k :: k in m ==> k != "" && m[k].value == k && m[k].title == Titleize(k) && NoDup(m[k].taskIds)
  }

  lemma PlaceKeepsBuckets(m: map<string, Bucket>, value: string, taskId: string)
    requires BucketsWellFormed(m) && value != ""
    ensures BucketsWellFormed(Place(m, value, taskId))
  {
    var r := Place(m, value, taskId);
    forall k | k in r ensures k != "" && r[k].value == k && r[k].title == Titleize(k) && NoDup(r[k].taskIds) {
      if k != value {
        assert r[k] == m[k];
      } else if value in m {
        assert r[k] == m[k].(taskIds := AddId(m[k].taskIds, taskId));
      } else {
        assert r[k] == Bucket(value, Titleize(value), [taskId]);
      }
    }
  }

  lemma UpsertKeepsBuckets(m: map<string, Bucket>, rawValue: Raw, taskId: string)
    requires BucketsWellFormed(m)
    ensures BucketsWellFormed(Upsert(m, rawValue, taskId))
  {
    var value := SanitizeValue(rawValue);
    if value != "" && taskId != "" {
      PlaceKeepsBuckets(m, value, taskId);
    }
  }

  // ---------------------------------------------------------------- the pools

  /** The four module-level collections. */
  datatype Pools = Pools(byCategory: map<string, Bucket>, byGame: map<string, Bucket>,
                         allTaskIds: seq<string>, tasksById: map<string, Entry>)

  /** The entry `loadTasks` builds for a task, or `None` when its id or its
      text is empty. */
  function EntryOf(t: RawTask): (r: Option<Entry>)
    ensures r.Some? <==> SanitizeValue(t.id) != "" && FormatTaskText(t.task).Some?
    ensures r.Some? ==> r.value.id == SanitizeValue(t.id) && r.value.text == FormatTaskText(t.task).value &&
                        r.value.category == SanitizeValue(t.category) && r.value.game == SanitizeValue(t.game)
  {
    var id := SanitizeValue(t.id);
    var text := FormatTaskText(t.task);
    if id == "" || text.None? then None
    else Some(Entry(id, text.value, SanitizeValue(t.category), SanitizeValue(t.game)))
  }

  /** The tasks before the first `null`, each with the entry it yields:
      a `null` element makes `task.id` throw, and the `catch` keeps what was
      loaded before it. */
  function EntryList(tasks: seq<Option<RawTask>>): (r: seq<Option<Entry>>)
    ensures |r| <= |tasks|
  {
    if tasks == [] || tasks[0].None? then [] else [EntryOf(tasks[0].value)] + EntryList(tasks[1..])
  }

  /** The list covers exactly the tasks before the first `null`, in order. */
  lemma {:induction false} EntryListAt(tasks: seq<Option<RawTask>>)
    ensures var r := EntryList(tasks);
            (forall k :: 0 <= k < |r| ==> tasks[k].Some? && r[k] == EntryOf(tasks[k].value)) &&
            (|r| < |tasks| ==> tasks[|r|].None?)
    decreases |tasks|
  {
    if tasks != [] && tasks[0].Some? {
      var r, rest := EntryList(tasks), EntryList(tasks[1..]);
      EntryListAt(tasks[1..]);
      assert r == [EntryOf(tasks[0].value)] + rest;
      forall k | 0 < k < |r| ensures tasks[k].Some? && r[k] == EntryOf(tasks[k].value) {
        assert r[k] == rest[k - 1] && tasks[1..][k - 1] == tasks[k];
      }
      if |r| < |tasks| {
        assert tasks[1..][|rest|] == tasks[|r|];
      }
    }
  }

  /** The categories and games of entries are sanitised already, so the
      second sanitisation inside `upsertTaskBucket` changes nothing. */
  lemma UpsertSanitized(m: map<string, Bucket>, value: string, taskId: string)
    requires SanitizeValue(Text(value)) == value
    ensures Upsert(m, Text(value), taskId) == File(m, value, taskId)
  {
  }

  /** Filing one entry: by id, in the list, and in its category and game buckets. */
  function AddEntry(p: Pools, e: Entry): Pools {
    Pools(File(p.byCategory, e.category, e.id), File(p.byGame, e.game, e.id),
          AddId(p.allTaskIds, e.id), p.tasksById[e.id := e])
  }

  /** One iteration of the `tasks.forEach` in `loadTasks`, on its entry. */
  function Step(p: Pools, entry: Option<Entry>): Pools {
    match entry
    case None => p
    case Some(e) => AddEntry(p, e)
  }

  function LoadEntries(p: Pools, entries: seq<Option<Entry>>): Pools
    decreases |entries|
  {
    if entries == [] then p else LoadEntries(Step(p, entries[0]), entries[1..])
  }

  /** The body of `loadTasks` over the parsed list. */
  function LoadAll(p: Pools, tasks: seq<Option<RawTask>>): Pools {
    LoadEntries(p, EntryList(tasks))
  }

  /** Every id that is listed has an entry and the other way round. */
  predicate IdsMatch(p: Pools) {
    NoDup(p.allTaskIds) &&
    (forall id :: id in p.allTaskIds ==> id in p.tasksById) &&
    (forall id :: id in p.tasksById ==> id in p.allTaskIds)
  }

  /** Each entry carries its own key as id, and a non-empty text. */
  predicate EntriesKeyed(byId: map<string, Entry>) {
    forall id :: id in byId ==> id != "" && byId[id].id == id && byId[id].text != ""
  }

  /** Every id filed in a bucket has an entry. */
  predicate FiledKnown(m: map<string, Bucket>, byId: map<string, Entry>) {
    forall k, id :: k in m && id in m[k].taskIds ==> id in byId
  }

  /** The invariant of the four collections. */
  predicate Consistent(p: Pools) {
    BucketsWellFormed(p.byCategory) && BucketsWellFormed(p.byGame) && IdsMatch(p) &&
    EntriesKeyed(p.tasksById) && FiledKnown(p.byCategory, p.tasksById) && FiledKnown(p.byGame, p.tasksById)
  }

  lemma FileKeepsBuckets(m: map<string, Bucket>, value: string, taskId: string)
    requires BucketsWellFormed(m)
    ensures BucketsWellFormed(File(m, value, taskId))
  {
    if value != "" && taskId != "" {
      PlaceKeepsBuckets(m, value, taskId);
    }
  }

  lemma FileKeepsFiled(m: map<string, Bucket>, byId: map<string, Entry>, value: string, e: Entry)
    requires FiledKnown(m, byId)
    ensures FiledKnown(File(m, value, e.id), byId[e.id := e])
  {
    if value != "" && e.id != "" {
      var r := Place(m, value, e.id);
      PlaceEffect(m, value, e.id);
      forall k, x | k in r && x in r[k].taskIds ensures x in byId[e.id := e] {
        if k != value {
          assert r[k] == m[k];
        } else if x != e.id {
          assert x in m[value].taskIds;
        }
      }
    }
  }

  /** The entries of well-formed tasks: a non-empty id and a non-empty text. */
  predicate Keepable(entries: seq<Option<Entry>>) {
    forall k :: 0 <= k < |entries| && entries[k].Some? ==> entries[k].value.id != "" && entries[k].value.text != ""
  }

  lemma EntryListKeepable(tasks: seq<Option<RawTask>>)
    ensures Keepable(EntryList(tasks))
  {
    EntryListAt(tasks);
  }

  /** Filing an entry with a non-empty id and text keeps the invariant, and
      drops no id. */
  lemma AddEntryConsistent(p: Pools, e: Entry)
    requires Consistent(p) && e.id != "" && e.text != ""
    ensures Consistent(AddEntry(p, e))
  {
    var q := AddEntry(p, e);
    FileKeepsBuckets(p.byCategory, e.category, e.id);
    FileKeepsBuckets(p.byGame, e.game, e.id);
    FileKeepsFiled(p.byCategory, p.tasksById, e.category, e);
    FileKeepsFiled(p.byGame, p.tasksById, e.game, e);
    assert IdsMatch(q);
    assert EntriesKeyed(q.tasksById);
  }

  lemma {:induction false} LoadEntriesConsistent(p: Pools, entries: seq<Option<Entry>>)
    requires Consistent(p) && Keepable(entries)
    ensures Consistent(LoadEntries(p, entries))
    decreases |entries|
  {
    if entries != [] {
      if entries[0].Some? {
        AddEntryConsistent(p, entries[0].value);
      }
      assert Keepable(entries[1..]) by {
        forall k | 0 <= k < |entries[1..]| && entries[1..][k].Some?
          ensures entries[1..][k].value.id != "" && entries[1..][k].value.text != ""
        {
          assert entries[1..][k] == entries[k + 1];
        }
      }
      LoadEntriesConsistent(Step(p, entries[0]), entries[1..]);
    }
  }

  /** Loading keeps the four collections consistent. */
  lemma LoadAllConsistent(p: Pools, tasks: seq<Option<RawTask>>)
    requires Consistent(p)
    ensures Consistent(LoadAll(p, tasks))
  {
    EntryListKeepable(tasks);
    LoadEntriesConsistent(p, EntryList(tasks));
  }

  /** Loading never removes an id from the list or from the entries. */
  lemma {:induction false} LoadEntriesGrows(p: Pools, entries: seq<Option<Entry>>)
    ensures forall id :: id in p.tasksById ==> id in LoadEntries(p, entries).tasksById
    ensures forall id :: id in p.allTaskIds ==> id in LoadEntries(p, entries).allTaskIds
    decreases |entries|
  {
    if entries != [] {
      LoadEntriesGrows(Step(p, entries[0]), entries[1..]);
    }
  }

  /** Every entry that is filed ends up listed and with an entry. */
  lemma {:induction false} LoadEntriesKeeps(p: Pools, entries: seq<Option<Entry>>, i: nat)
    requires i < |entries| && entries[i].Some?
    ensures entries[i].value.id in LoadEntries(p, entries).allTaskIds
    ensures entries[i].value.id in LoadEntries(p, entries).tasksById
    decreases i
  {
    var q := Step(p, entries[0]);
    if i == 0 {
      LoadEntriesGrows(q, entries[1..]);
    } else {
      assert entries[1..][i - 1] == entries[i];
      LoadEntriesKeeps(q, entries[1..], i - 1);
    }
  }

  /** Every task before the first `null` with a non-empty id and text ends
      up listed and with an entry, and loading never drops an id. */
  lemma LoadAllKeeps(p: Pools, tasks: seq<Option<RawTask>>, i: nat)
    requires i < |tasks| && forall j :: 0 <= j <= i ==> tasks[j].Some?
    requires EntryOf(tasks[i].value).Some?
    ensures SanitizeValue(tasks[i].value.id) in LoadAll(p, tasks).allTaskIds
    ensures SanitizeValue(tasks[i].value.id) in LoadAll(p, tasks).tasksById
    ensures forall id :: id in p.tasksById ==> id in LoadAll(p, tasks).tasksById
  {
    var entries := EntryList(tasks);
    EntryListAt(tasks);
    assert i < |entries|;
    LoadEntriesKeeps(p, entries, i);
    LoadEntriesGrows(p, entries);
  }

  /** The module state of utils/bingoTasks.js. */
  class Catalog {
    var byCategory: map<string, Bucket>
    var byGame: map<string, Bucket>
    var allTaskIds: seq<string>
    var tasksById: map<string, Entry>

    function Snapshot(): Pools
      reads this
    {
      Pools(byCategory, byGame, allTaskIds, tasksById)
    }

    ghost predicate Valid()
      reads this
    {
      Consistent(Snapshot())
    }

    /** The four collections start empty. */
    constructor ()
      ensures Valid() && Snapshot() == Pools(map[], map[], [], map[])
    {
      byCategory, byGame, allTaskIds, tasksById := map[], map[], [], map[];
    }

    /** `loadTasks()` over the parsed list. */
    method LoadTasks(tasks: seq<Option<RawTask>>)
      requires Valid()
      modifies this
      ensures Valid()
      ensures Snapshot() == LoadAll(old(Snapshot()), tasks)
    {
      LoadAllConsistent(Snapshot(), tasks);
      var i := 0;
      while i < |tasks|
        invariant 0 <= i <= |tasks|
        invariant LoadEntries(Snapshot(), EntryList(tasks[i..])) == LoadAll(old(Snapshot()), tasks)
      {
        if tasks[i].None? {
          return;
        }
        var task := tasks[i].value;
        ghost var before := Snapshot();
        assert EntryList(tasks[i..]) == [EntryOf(task)] + EntryList(tasks[i + 1..]) by {
          assert tasks[i..][1..] == tasks[i + 1..];
        }
        var id := SanitizeValue(task.id);
        var text := FormatTaskText(task.task);
        if id != "" && text.Some? {
          var entry := Entry(id, text.value, SanitizeValue(task.category), SanitizeValue(task.game));
          tasksById := tasksById[id := entry];
          allTaskIds := AddId(allTaskIds, id);
          SanitizeIdempotent(task.category);
          UpsertSanitized(byCategory, entry.category, id);
          byCategory := Upsert(byCategory, Text(entry.category), id);
          SanitizeIdempotent(task.game);
          UpsertSanitized(byGame, entry.game, id);
          byGame := Upsert(byGame, Text(entry.game), id);
          assert Snapshot() == AddEntry(before, entry);
        }
        i := i + 1;
      }
    }

    /** `getCategoryPool(value)`. */
    function CategoryPool(value: Raw): (r: seq<Entry>)
      reads this
      ensures SanitizeValue(value) !in byCategory ==> r == []
      ensures forall e :: e in r ==> e in tasksById.Values
    {
      GetBucketTasks(if SanitizeValue(value) in byCategory then Some(byCategory[SanitizeValue(value)]) else None, tasksById)
    }

    /** `getGamePool(value)`. */
    function GamePool(value: Raw): (r: seq<Entry>)
      reads this
      ensures SanitizeValue(value) !in byGame ==> r == []
      ensures forall e :: e in r ==> e in tasksById.Values
    {
      GetBucketTasks(if SanitizeValue(value) in byGame then Some(byGame[SanitizeValue(value)]) else None, tasksById)
    }

    /** `getAllTasksPool()`: with the invariant, one entry per listed id, in order. */
    function AllTasksPool(): (r: seq<Entry>)
      reads this
      ensures Valid() ==> |r| == |allTaskIds| && forall k :: 0 <= k < |r| ==> r[k] == tasksById[allTaskIds[k]]
    {
      BucketTasks(allTaskIds, tasksById)
    }

    /** `getTaskEntry(taskId)`: the entry of a loaded task, which carries that id. */
    function TaskEntry(taskId: string): (r: Option<Entry>)
      reads this
      ensures r.Some? <==> taskId in tasksById
      ensures r.Some? ==> r.value == tasksById[taskId]
      ensures Valid() && r.Some? ==> r.value.id == taskId && taskId in allTaskIds
    {
      if taskId in tasksById then Some(tasksById[taskId]) else None
    }

    /** `getAllTaskEntries()`, the order aside: with the invariant these are
        the entries of the whole-catalogue pool. */
    function AllTaskEntries(): (r: set<Entry>)
      reads this
      ensures forall e :: e in r <==> exists id :: id in tasksById && tasksById[id] == e
      ensures Valid() ==> forall e :: e in r <==> e in AllTasksPool()
    {
      var pool := AllTasksPool();
      assert Valid() ==> forall e :: e in tasksById.Values ==> e in pool by {
        if Valid() {
          forall e | e in tasksById.Values ensures e in pool {
            var id :| id in tasksById && tasksById[id] == e;
            var k :| 0 <= k < |allTaskIds| && allTaskIds[k] == id;
            assert pool[k] == e;
          }
        }
      }
      tasksById.Values
    }

    /** A pool holds only entries of filed tasks, with their non-empty text. */
    lemma PoolsHoldEntries(value: Raw)
      requires Valid()
      ensures forall e :: e in CategoryPool(value) ==> e.id in tasksById && tasksById[e.id] == e && e.text != ""
      ensures forall e :: e in GamePool(value) ==> e.id in tasksById && tasksById[e.id] == e && e.text != ""
    {
    }

    /** `getBingoTasksMeta()`, the order of the lists aside. */
    function TasksMeta(): (r: (set<Meta>, set<Meta>))
      reads this
      ensures forall meta :: meta in r.0 ==> meta.count >= MinPoolSize
      ensures forall meta :: meta in r.1 ==> meta.count >= MinPoolSize
      ensures forall k :: k in byCategory && |byCategory[k].taskIds| >= MinPoolSize ==> BucketToMeta(byCategory[k]) in r.0
      ensures forall k :: k in byGame && |byGame[k].taskIds| >= MinPoolSize ==> BucketToMeta(byGame[k]) in r.1
    {
      (PoolsMeta(byCategory), PoolsMeta(byGame))
    }
  }

  /** `bucketToMeta(bucket)`: the count is the number of distinct ids. */
  function BucketToMeta(b: Bucket): (meta: Meta)
    ensures meta.value == b.value && meta.count == |b.taskIds|
    ensures NoDup(b.taskIds) ==> meta.count == |set id | id in b.taskIds|
    ensures meta.title == (if b.title != "" then b.title else b.value)
  {
    assert NoDup(b.taskIds) ==> |b.taskIds| == |set id | id in b.taskIds| by {
      if NoDup(b.taskIds) { DistinctCount(b.taskIds); }
    }
    Meta(b.value, if b.title != "" then b.title else b.value, |b.taskIds|)
  }

  lemma {:induction false} DistinctCount(ids: seq<string>)
    requires NoDup(ids)
    ensures |set id | id in ids| == |ids|
    decreases |ids|
  {
    if ids != [] {
      DistinctCount(ids[1..]);
      assert (set id | id in ids) == (set id | id in ids[1..]) + {ids[0]};
      assert ids[0] !in ids[1..];
    }
  }

  /** The filter and map of `getBingoTasksMeta` for one collection of buckets. */
  function PoolsMeta(m: map<string, Bucket>): (r: set<Meta>)
    ensures forall meta :: meta in r ==> meta.count >= MinPoolSize
    ensures forall meta :: meta in r ==> exists k :: k in m && meta == BucketToMeta(m[k])
    ensures forall k :: k in m && |m[k].taskIds| >= MinPoolSize ==> BucketToMeta(m[k]) in r
  {
    set k | k in m && |m[k].taskIds| >= MinPoolSize :: BucketToMeta(m[k])
  }

  /** `getBucketTasks(bucket)`: the entries of the bucket's ids, in order,
      skipping ids without one. */
  function BucketTasks(ids: seq<string>, tasksById: map<string, Entry>): (r: seq<Entry>)
    ensures |r| <= |ids|
    ensures forall e :: e in r ==> exists id :: id in ids && id in tasksById && e == tasksById[id]
    ensures (forall id :: id in ids ==> id in tasksById) ==>
              |r| == |ids| && forall k :: 0 <= k < |ids| ==> r[k] == tasksById[ids[k]]
  {
    if ids == [] then []
    else
      var rest := BucketTasks(ids[1..], tasksById);
      assert forall id :: id in ids[1..] ==> id in ids;
      if ids[0] in tasksById then [tasksById[ids[0]]] + rest else rest
  }

  function GetBucketTasks(bucket: Option<Bucket>, tasksById: map<string, Entry>): (r: seq<Entry>)
    ensures bucket.None? ==> r == []
    ensures bucket.Some? ==> r == BucketTasks(bucket.value.taskIds, tasksById)
  {
    if bucket.None? then [] else BucketTasks(bucket.value.taskIds, tasksById)
  }
}
