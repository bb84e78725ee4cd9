/** Advisory path locks: a path is held while an unfinished task names it. */
module Locks {
  import opened GoPaths

  datatype Json = Str(text: string) | Arr(items: seq<Json>) | Obj(fields: map<string, Json>) | Other

  /** `Upload` stands for every type that locks nothing. */
  datatype Kind = Move | Rename | Delete | DeleteTrash | Restore | Upload

  datatype Task = Task(kind: Kind, data: map<string, Json>)

  datatype Verdict = Free | Conflict(paths: seq<string>) | Undetermined

  /** What the task service answers: the unfinished tasks, or a failure. */
  datatype Reading = Unfinished(tasks: seq<Task>) | Unreachable

  predicate Conflicts(a: string, b: string) {
    var a', b' := TrimRight(a), TrimRight(b);
    a' != "" && b' != "" && (IsWithin(a', b') || IsWithin(b', a'))
  }

  // ----- Reading a task's data -----

  function Field(data: map<string, Json>, key: string): Json {
    if key in data then data[key] else Other
  }

  function StringAt(data: map<string, Json>, key: string): string {
    if Field(data, key).Str? then Field(data, key).text else ""
  }

  function Texts(items: seq<Json>): seq<string> {
    if items == [] then [] else (if items[0].Str? then [items[0].text] else []) + Texts(items[1..])
  }

  function StringsOf(data: map<string, Json>, key: string): seq<string> {
    if Field(data, key).Arr? then Texts(Field(data, key).items) else []
  }

  lemma TextsStep(items: seq<Json>, i: nat)
    requires i < |items|
    ensures Texts(items[..i + 1]) == Texts(items[..i]) + (if items[i].Str? then [items[i].text] else [])
  {
    TextsAppend(items[..i], items[i]);
    assert items[..i + 1] == items[..i] + [items[i]];
  }

  lemma {:induction false} TextsAppend(items: seq<Json>, last: Json)
    ensures Texts(items + [last]) == Texts(items) + (if last.Str? then [last.text] else [])
  {
    var all := items + [last];
    if items == [] {
      assert all == [last] && all[1..] == [];
    } else {
      assert all[0] == items[0] && all[1..] == items[1..] + [last];
      TextsAppend(items[1..], last);
    }
  }

  /** A list of strings; anything else in it is skipped. */
  method StringsAt(data: map<string, Json>, key: string) returns (out: seq<string>)
    ensures out == StringsOf(data, key)
  {
    out := [];
    if !Field(data, key).Arr? {
      return;
    }
    var items := Field(data, key).items;
    assert items[..|items|] == items;
    for i := 0 to |items|
      invariant out == Texts(items[..i])
    {
      TextsStep(items, i);
      if items[i].Str? {
        out := out + [items[i].text];
      }
    }
  }

  predicate HasValue(data: map<string, Json>, key: string, s: string) {
    && Field(data, key).Obj?
    && exists k :: k in Field(data, key).fields && Field(data, key).fields[k] == Str(s)
  }

  predicate HasFieldOfValue(data: map<string, Json>, key: string, field: string, s: string) {
    && Field(data, key).Obj?
    && exists k :: k in Field(data, key).fields && IsObjectWith(Field(data, key).fields[k], field, s)
  }

  predicate IsObjectWith(value: Json, field: string, s: string) {
    value.Obj? && field in value.fields && value.fields[field] == Str(s)
  }

  method ValuesOf(data: map<string, Json>, key: string) returns (out: seq<string>)
    ensures forall s :: s in out <==> HasValue(data, key, s)
  {
    out := [];
    if !Field(data, key).Obj? {
      return;
    }
    var raw := Field(data, key).fields;
    var left := raw.Keys;
    while left != {}
      invariant left <= raw.Keys
      invariant forall s :: s in out ==> exists k :: k in raw && raw[k] == Str(s)
      invariant forall k :: k in raw && k !in left && raw[k].Str? ==> raw[k].text in out
    {
      var k :| k in left;
      left := left - {k};
      if raw[k].Str? {
        out := out + [raw[k].text];
      }
    }
  }

  method FieldOfValues(data: map<string, Json>, key: string, field: string) returns (out: seq<string>)
    ensures forall s :: s in out <==> HasFieldOfValue(data, key, field, s)
  {
    out := [];
    if !Field(data, key).Obj? {
      return;
    }
    var raw := Field(data, key).fields;
    var left := raw.Keys;
    while left != {}
      invariant left <= raw.Keys
      invariant forall s :: s in out ==> exists k :: k in raw && IsObjectWith(raw[k], field, s)
      invariant forall k, s :: k in raw && k !in left && IsObjectWith(raw[k], field, s) ==> s in out
    {
      var k :| k in left;
      left := left - {k};
      if raw[k].Obj? && field in raw[k].fields && raw[k].fields[field].Str? {
        assert IsObjectWith(raw[k], field, raw[k].fields[field].text);
        out := out + [raw[k].fields[field].text];
      }
    }
  }

  function Destination(dest: string, source: string): string { Join(dest, Base(source)) }

  function Destinations(dest: string, sources: seq<string>): seq<string> {
    seq(|sources|, i requires 0 <= i < |sources| => Destination(dest, sources[i]))
  }

  /** Where each source lands. */
  method DestinationsUnder(dest: string, sources: seq<string>) returns (out: seq<string>)
    ensures out == Destinations(dest, sources)
  {
    out := [];
    for i := 0 to |sources|
      invariant |out| == i && forall j :: 0 <= j < i ==> out[j] == Destination(dest, sources[j])
    {
      out := out + [Destination(dest, sources[i])];
    }
  }

  ghost predicate LandsAt(sources: seq<string>, dest: string, p: string) {
    exists s :: s in sources && s != "" && p == Destination(dest, s)
  }

  /** The paths a task holds while it is unfinished, by what its type does with its data. */
  ghost predicate Names(task: Task, p: string) {
    match task.kind
    case Move =>
      var sources, dest := StringsOf(task.data, "sources"), StringAt(task.data, "destination");
      p in sources || (dest != "" && LandsAt(sources, dest, p))
    case Rename => p == StringAt(task.data, "source") || p == StringAt(task.data, "destination")
    case Delete => p in StringsOf(task.data, "paths") || HasValue(task.data, "trash-paths", p)
    case DeleteTrash => p in StringsOf(task.data, "trash-paths")
    case Restore =>
      p in StringsOf(task.data, "paths") || HasFieldOfValue(task.data, "restoration-paths", "restored-path", p)
    case Upload => false
  }

  ghost predicate Holds(task: Task, p: string) { p != "" && Names(task, p) }

  /** A move holds its sources and where each lands, not the collection they go to. */
  method MovePaths(data: map<string, Json>) returns (out: seq<string>)
    ensures forall p :: p in out <==> Names(Task(Move, data), p)
  {
    var sources := StringsAt(data, "sources");
    var dest := StringAt(data, "destination");
    if dest == "" {
      return sources;
    }
    var named := Named(sources);
    var landing := DestinationsUnder(dest, named);
    forall p ensures p in landing <==> LandsAt(sources, dest, p) {
      if s :| s in sources && s != "" && p == Destination(dest, s) {
        var j :| 0 <= j < |named| && named[j] == s;
        assert landing[j] == p;
      }
      if p in landing {
        var j :| 0 <= j < |landing| && landing[j] == p;
        assert named[j] in named && p == Destination(dest, named[j]);
      }
    }
    return sources + landing;
  }

  method Named(sources: seq<string>) returns (named: seq<string>)
    ensures forall s :: s in named <==> s in sources && s != ""
  {
    named := [];
    for i := 0 to |sources|
      invariant forall s :: s in named <==> s in sources[..i] && s != ""
    {
      if sources[i] != "" {
        named := named + [sources[i]];
      }
    }
    assert sources[..|sources|] == sources;
  }

  method PathsOf(task: Task) returns (out: seq<string>)
    ensures forall p :: p in out <==> Names(task, p)
  {
    match task.kind
    case Move =>
      out := MovePaths(task.data);
    case Rename =>
      return [StringAt(task.data, "source"), StringAt(task.data, "destination")];
    case Delete =>
      var requested := StringsAt(task.data, "paths");
      var trashed := ValuesOf(task.data, "trash-paths");
      return requested + trashed;
    case DeleteTrash =>
      out := StringsAt(task.data, "trash-paths");
    case Restore =>
      var requested := StringsAt(task.data, "paths");
      var restored := FieldOfValues(task.data, "restoration-paths", "restored-path");
      return requested + restored;
    case Upload =>
      return [];
  }

  ghost predicate HeldBy(tasks: seq<Task>, p: string) {
    exists i :: 0 <= i < |tasks| && Holds(tasks[i], p)
  }

  method AddNamed(seen: set<string>, named: seq<string>) returns (locked: set<string>)
    ensures forall p :: p in locked <==> p in seen || (p != "" && p in named)
  {
    locked := seen;
    for j := 0 to |named|
      invariant forall p :: p in locked <==> p in seen || (p != "" && p in named[..j])
    {
      if named[j] != "" {
        locked := locked + {named[j]};
      }
    }
    assert named[..|named|] == named;
  }

  /** Every path the given tasks hold. */
  method LockedPaths(tasks: seq<Task>) returns (locked: set<string>)
    ensures forall p :: p in locked <==> HeldBy(tasks, p)
  {
    locked := {};
    for i := 0 to |tasks|
      invariant forall p :: p in locked <==> HeldBy(tasks[..i], p)
    {
      var named := PathsOf(tasks[i]);
      locked := AddNamed(locked, named);
      forall p ensures HeldBy(tasks[..i + 1], p) <==> HeldBy(tasks[..i], p) || Holds(tasks[i], p) {
        HeldStep(tasks, i, p);
      }
    }
    assert tasks[..|tasks|] == tasks;
  }

  lemma HeldStep(tasks: seq<Task>, i: nat, p: string)
    requires i < |tasks|
    ensures HeldBy(tasks[..i + 1], p) <==> HeldBy(tasks[..i], p) || Holds(tasks[i], p)
  {
    if j :| 0 <= j < i && Holds(tasks[..i][j], p) {
      assert tasks[..i + 1][j] == tasks[..i][j];
    }
    assert tasks[..i + 1][i] == tasks[i];
    if HeldBy(tasks[..i + 1], p) && !Holds(tasks[i], p) {
      var j :| 0 <= j < i + 1 && Holds(tasks[..i + 1][j], p);
      assert tasks[..i][j] == tasks[..i + 1][j];
    }
  }

  /** Some unfinished task holds a path that is, contains or lies in `p`. */
  ghost predicate Taken(tasks: seq<Task>, p: string) {
    exists q :: HeldBy(tasks, q) && Conflicts(p, q)
  }

  /** `refused` is the taken ones of `asked`, in order and with repetitions. */
  ghost function RefusedOf(tasks: seq<Task>, asked: seq<string>): seq<string> {
    if asked == [] then [] else
      var last := asked[|asked| - 1];
      RefusedOf(tasks, asked[..|asked| - 1]) + (if Taken(tasks, last) then [last] else [])
  }

  lemma {:induction false} RefusedExactly(tasks: seq<Task>, asked: seq<string>, p: string)
    ensures p in RefusedOf(tasks, asked) <==> p in asked && Taken(tasks, p)
  {
    if asked != [] {
      RefusedExactly(tasks, asked[..|asked| - 1], p);
      assert asked == asked[..|asked| - 1] + [asked[|asked| - 1]];
    }
  }

  /** Nothing about one asked path depends on the others, so the refused ones are in the order asked. */
  lemma {:induction false} RefusedInOrder(tasks: seq<Task>, a: seq<string>, b: seq<string>)
    ensures RefusedOf(tasks, a + b) == RefusedOf(tasks, a) + RefusedOf(tasks, b)
  {
    if b == [] {
      assert a + b == a;
    } else {
      var front, last := b[..|b| - 1], b[|b| - 1];
      RefusedInOrder(tasks, a, front);
      assert (a + b)[..|a + b| - 1] == a + front && (a + b)[|a + b| - 1] == last;
      assert RefusedOf(tasks, a + b) == RefusedOf(tasks, a + front) + (if Taken(tasks, last) then [last] else []);
    }
  }

  lemma RefusedAlone(tasks: seq<Task>, p: string)
    ensures RefusedOf(tasks, [p]) == if exists q :: HeldBy(tasks, q) && Conflicts(p, q) then [p] else []
  {
    assert [p][..0] == [];
  }

  lemma NothingRefused(tasks: seq<Task>, asked: seq<string>)
    requires forall p :: !HeldBy(tasks, p)
    ensures RefusedOf(tasks, asked) == []
  {
    if asked != [] {
      NothingRefused(tasks, asked[..|asked| - 1]);
    }
  }

  method ConflictsAny(p: string, locked: set<string>) returns (found: bool)
    ensures found <==> exists q :: q in locked && Conflicts(p, q)
  {
    var left := locked;
    while left != {}
      invariant left <= locked
      invariant forall q :: q in locked && q !in left ==> !Conflicts(p, q)
    {
      var q :| q in left;
      if Conflicts(p, q) {
        return true;
      }
      left := left - {q};
    }
    return false;
  }

  /** Refuses paths that unfinished work holds, naming every one of them. */
  method Validate(reading: Reading, asked: seq<string>) returns (verdict: Verdict)
    ensures verdict ==
            if asked == [] then Free
            else if reading.Unreachable? then Undetermined
            else if RefusedOf(reading.tasks, asked) == [] then Free
            else Conflict(RefusedOf(reading.tasks, asked))
  {
    if |asked| == 0 {
      return Free;
    }
    if reading.Unreachable? {
      return Undetermined;
    }
    var locked := LockedPaths(reading.tasks);
    if locked == {} {
      NothingRefused(reading.tasks, asked);
      return Free;
    }
    var conflicting := [];
    for i := 0 to |asked|
      invariant conflicting == RefusedOf(reading.tasks, asked[..i])
    {
      assert asked[..i + 1][..i] == asked[..i];
      if TrimRight(asked[i]) != "" {
        var found := ConflictsAny(asked[i], locked);
        assert found <==> Taken(reading.tasks, asked[i]);
        if found {
          conflicting := conflicting + [asked[i]];
        }
      }
    }
    assert asked[..|asked|] == asked;
    return if conflicting == [] then Free else Conflict(conflicting);
  }

  // ----- What a conflict is -----

  lemma TrimTwice(s: string)
    ensures TrimRight(TrimRight(s)) == TrimRight(s)
  {
  }

  /** Main result: two paths conflict exactly when, trailing slashes aside, both are non-empty and one's
      components are a prefix of the other's, for any two strings. */
  lemma ConflictsExactly(a: string, b: string)
    ensures Conflicts(a, b)
       <==> var a', b' := TrimRight(a), TrimRight(b);
            a' != "" && b' != "" && (Split(a') <= Split(b') || Split(b') <= Split(a'))
  {
    TrimTwice(a);
    TrimTwice(b);
    WithinExactly(TrimRight(a), TrimRight(b));
    WithinExactly(TrimRight(b), TrimRight(a));
  }

  lemma ConflictsIsSymmetric(a: string, b: string)
    ensures Conflicts(a, b) == Conflicts(b, a)
  {
  }
}
