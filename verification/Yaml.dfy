/** Decoded YAML, and the removal of the program's own fields from it. */
module Yaml {
  import opened Options
  import opened Text

  /** `Scalar` is a string, `Other` a number, truth value or date. */
  datatype Yaml = Null | Scalar(text: string) | Other(text: string) | List(items: seq<Yaml>) | Map(entries: Doc)
  type Doc = map<string, Yaml>

  /** The mapping stored under a key, if it is one. */
  function Sub(d: Doc, key: string): Option<Doc> {
    if key in d && d[key].Map? then Some(d[key].entries) else None
  }

  function SubOrEmpty(d: Doc, key: string): Doc {
    if Sub(d, key).Some? then Sub(d, key).value else map[]
  }

  predicate OwnKey(key: string) {
    HasPrefix(key, "dd_ui_")
  }

  /** The document without its `dd_ui_` keys, at every depth. */
  function Strip(y: Yaml): Yaml {
    match y
    case Map(m) => Map(map k | k in m && !OwnKey(k) :: Strip(m[k]))
    case List(s) => List(seq(|s|, i requires 0 <= i < |s| => Strip(s[i])))
    case _ => y
  }

  function StripDoc(d: Doc): Doc {
    map k | k in d && !OwnKey(k) :: Strip(d[k])
  }

  method RemoveDDUIFields(data: Yaml) returns (result: Yaml)
    ensures result == Strip(data)
  {
    match data
    case Map(m) =>
      var clean: Doc := map[];
      var keys: set<string> := m.Keys;
      while keys != {}
        invariant keys <= m.Keys
        invariant forall k :: k in clean <==> k in m && k !in keys && !OwnKey(k)
        invariant forall k | k in clean :: clean[k] == Strip(m[k])
        decreases |keys|
      {
        var k: string :| k in keys;
        if !OwnKey(k) {
          var val := RemoveDDUIFields(m[k]);
          clean := clean[k := val];
        }
        keys := keys - {k};
      }
      assert clean == StripDoc(m);
      result := Map(clean);
    case List(s) =>
      var clean: seq<Yaml> := [];
      for i := 0 to |s|
        invariant |clean| == i && forall j | 0 <= j < i :: clean[j] == Strip(s[j])
      {
        var val := RemoveDDUIFields(s[i]);
        clean := clean + [val];
      }
      assert clean == Strip(data).items;
      result := List(clean);
    case Null => result := data;
    case Scalar(_) => result := data;
    case Other(_) => result := data;
  }

  /* ---- what stripping keeps ---- */

  datatype Step = Key(name: string) | Item(index: nat)

  /** The value at a path, if the document has one there. */
  function At(y: Yaml, path: seq<Step>): Option<Yaml>
    decreases |path|
  {
    if path == [] then Some(y)
    else
      match (y, path[0])
      case (Map(m), Key(k)) => if k in m then At(m[k], path[1..]) else None
      case (List(s), Item(i)) => if i < |s| then At(s[i], path[1..]) else None
      case _ => None
  }

  /** Some step of the path is a key that begins with "dd_ui_". */
  predicate ThroughOwnKey(path: seq<Step>) {
    exists i | 0 <= i < |path| :: path[i].Key? && "dd_ui_" <= path[i].name
  }

  /** Stripping removes exactly the values that lie behind a `dd_ui_` key; every other path leads
      to what it led to, stripped in turn. */
  lemma {:induction false} StripKeepsExactly(y: Yaml, path: seq<Step>)
    ensures At(Strip(y), path) ==
              if ThroughOwnKey(path) || At(y, path).None? then None else Some(Strip(At(y, path).value))
    decreases |path|
  {
    if path != [] {
      assert ThroughOwnKey(path) <==> (path[0].Key? && "dd_ui_" <= path[0].name) || ThroughOwnKey(path[1..]) by {
        assert forall i | 0 <= i < |path[1..]| :: path[1..][i] == path[i + 1];
        if ThroughOwnKey(path) && !(path[0].Key? && "dd_ui_" <= path[0].name) {
          var i :| 0 <= i < |path| && path[i].Key? && "dd_ui_" <= path[i].name;
          assert path[1..][i - 1] == path[i];
        }
      }
      match (y, path[0])
      case (Map(m), Key(k)) => if k in m { StripKeepsExactly(m[k], path[1..]); }
      case (List(s), Item(i)) => if i < |s| { StripKeepsExactly(s[i], path[1..]); }
      case _ =>
    }
  }

  lemma {:induction false} StripIsIdempotent(y: Yaml)
    ensures Strip(Strip(y)) == Strip(y)
  {
    match y
    case Map(m) =>
      forall k | k in m
        ensures Strip(Strip(m[k])) == Strip(m[k])
      {
        StripIsIdempotent(m[k]);
      }
      assert Strip(Strip(y)).entries == Strip(y).entries;
    case List(s) =>
      forall i | 0 <= i < |s|
        ensures Strip(Strip(s[i])) == Strip(s[i])
      {
        StripIsIdempotent(s[i]);
      }
      assert Strip(Strip(y)).items == Strip(y).items;
    case _ =>
  }

  /** Replacing the value of an ordinary key shows exactly if the new value strips to something else. */
  lemma StripUnderKey(d: Doc, key: string, val: Yaml)
    requires key in d
    ensures StripDoc(d[key := val]) == StripDoc(d) <==> OwnKey(key) || Strip(val) == Strip(d[key])
  {
    if !OwnKey(key) {
      assert StripDoc(d[key := val])[key] == Strip(val) && StripDoc(d)[key] == Strip(d[key]);
    }
  }

  lemma StripOwnKey(d: Doc, key: string, val: Yaml)
    requires OwnKey(key)
    ensures StripDoc(d[key := val]) == StripDoc(d)
  {
  }
}
