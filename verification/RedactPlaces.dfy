/**
 * Which places of a tree are masked and which are restored (web/lib/redact-config.ts), said of paths
 * through the tree and of key names.
 */
module RedactPlaces {
  import opened RedactConfig
  import opened Wrappers

  /** What stands at the end of a path, if it leads anywhere. */
  function Walk(c: Json, path: seq<Hop>): Option<Json>
    decreases |path|
  {
    if path == [] then Some(c)
    else
      match path[0]
      case Member(k) => if c.Obj? && k in c.members then Walk(c.members[k], path[1..]) else None
      case Index(i) => if c.Arr? && i < |c.items| then Walk(c.items[i], path[1..]) else None
  }

  /** The path goes through no member called `__proto__`. */
  predicate Clean(path: seq<Hop>) {
    forall i | 0 <= i < |path| :: path[i] != Member("__proto__")
  }

  /** A member whose name calls for masking: a sensitive one, or `value` beside a `secret` that is true. */
  predicate Sought(sens: Sensitive, members: map<string, Json>, k: string) {
    sens(k) || (k == "value" && "secret" in members && members["secret"] == Bool(true))
  }

  /** The path ends at such a member. */
  predicate EndsSought(sens: Sensitive, c: Json, path: seq<Hop>)
    decreases |path|
  {
    path != [] &&
    match path[0]
    case Member(k) =>
      c.Obj? && k in c.members
      && if |path| == 1 then Sought(sens, c.members, k) else EndsSought(sens, c.members[k], path[1..])
    case Index(i) => c.Arr? && i < |c.items| && EndsSought(sens, c.items[i], path[1..])
  }

  lemma CleanRest(path: seq<Hop>)
    requires path != []
    ensures Clean(path) <==> path[0] != Member("__proto__") && Clean(path[1..])
  {
    assert path == [path[0]] + path[1..];
    if path[0] != Member("__proto__") && Clean(path[1..]) {
      forall i | 0 <= i < |path| ensures path[i] != Member("__proto__") {
        assert i > 0 ==> path[i] == path[1..][i - 1];
      }
    } else if Clean(path) {
      forall i | 0 <= i < |path[1..]| ensures path[1..][i] != Member("__proto__") {
        assert path[1..][i] == path[i + 1];
      }
    }
  }

  lemma MemberShown(sens: Sensitive, members: map<string, Json>, k: string)
    ensures var r := Redact(sens, Obj(members));
      && r.Obj? && (k in r.members <==> k in members && k != "__proto__")
      && (k in r.members ==>
            r.members[k] == if members[k].Str? && members[k].s != "" && Sought(sens, members, k) then Str("********")
                            else Redact(sens, members[k]))
  {
  }

  lemma NotShown(sens: Sensitive, c: Json)
    ensures !c.Arr? && !c.Obj? ==> Redact(sens, c) == c
    ensures c.Arr? ==> Redact(sens, c).Arr? && |Redact(sens, c).items| == |c.items|
    ensures c.Arr? ==> forall i :: 0 <= i < |c.items| ==> Redact(sens, c).items[i] == Redact(sens, c.items[i])
  {
  }

  lemma LeadsNowhere(c: Json, path: seq<Hop>)
    requires path != [] && !c.Arr? && !c.Obj?
    ensures Walk(c, path) == None
  {
  }

  /**
   * Exactly what the masked tree shows, at every path: a non-empty string whose place is sought is the
   * mask; any other value that is not a container is itself; arrays keep their length, objects stay
   * objects; and a path leads somewhere exactly when it did and is clean.
   */
  lemma {:induction false} MaskedExactly(sens: Sensitive, c: Json, path: seq<Hop>)
    ensures var was, shown := Walk(c, path), Walk(Redact(sens, c), path);
      && (shown.Some? <==> was.Some? && Clean(path))
      && (shown.Some? ==>
            match was.value
            case Arr(items) => shown.value.Arr? && |shown.value.items| == |items|
            case Obj(_) => shown.value.Obj?
            case Str(s) => shown.value == Str(if s != "" && EndsSought(sens, c, path) then "********" else s)
            case v => shown.value == v)
    decreases |path|
  {
    NotShown(sens, c);
    if path != [] {
      CleanRest(path);
      match path[0]
      case Member(k) =>
        if c.Obj? && k in c.members {
          MemberShown(sens, c.members, k);
          MaskedExactly(sens, c.members[k], path[1..]);
          if |path| > 1 && c.members[k].Str? {
            LeadsNowhere(c.members[k], path[1..]);
            LeadsNowhere(Str("********"), path[1..]);
          }
        } else if c.Obj? {
          MemberShown(sens, c.members, k);
        }
      case Index(i) =>
        if c.Arr? && i < |c.items| {
          MaskedExactly(sens, c.items[i], path[1..]);
        }
    } else if c.Obj? {
      MemberShown(sens, c.members, "");
    }
  }

  /** Along the path, up to its last hop, both trees have containers of the same kind. */
  predicate Paired(e: Json, c: Json, path: seq<Hop>)
    decreases |path|
  {
    path == [] ||
    match path[0]
    case Member(k) =>
      e.Obj? && c.Obj? && k in e.members
      && (|path| == 1 || (k in c.members && Paired(e.members[k], c.members[k], path[1..])))
    case Index(i) =>
      e.Arr? && c.Arr? && i < |e.items|
      && (|path| == 1 || (i < |c.items| && Paired(e.items[i], c.items[i], path[1..])))
  }

  /** What is put in place of a mask: the stored value, or nothing where there is none. */
  function Instead(c: Json, path: seq<Hop>): Json {
    match Walk(c, path)
    case Some(v) => if v == Null then Str("") else v
    case None => Str("")
  }

  lemma MemberRestored(sens: Sensitive, e: map<string, Json>, c: map<string, Json>, k: string)
    requires k in e && k != "__proto__"
    ensures var u := Unredact(sens, Obj(e), Some(Obj(c)));
      && u.Obj? && k in u.members
      && u.members[k] ==
        if Sought(sens, e, k) && e[k] == Str("********") then Instead(Obj(c), [Member(k)])
        else Unredact(sens, e[k], if k in c then Some(c[k]) else None)
  {
    var hops := [Member(k)];
    assert hops[1..] == [];
    assert Walk(Obj(c), hops) == if k in c then Walk(c[k], hops[1..]) else None;
    assert Restored(Obj(c), k) == Instead(Obj(c), hops);
    assert SecretAt(sens, Flagged(e), k) <==> Sought(sens, e, k);
  }

  lemma ItemRestored(sens: Sensitive, e: seq<Json>, c: seq<Json>, i: nat)
    requires i < |e|
    ensures var u := Unredact(sens, Arr(e), Some(Arr(c)));
      && u.Arr? && |u.items| == |e|
      && u.items[i] == Unredact(sens, e[i], if i < |c| then Some(c[i]) else None)
  {
  }

  lemma LeafStays(sens: Sensitive, e: Json, stored: Option<Json>)
    requires !e.Arr? && !e.Obj?
    ensures Unredact(sens, e, stored) == e
  {
  }

  /**
   * Exactly what is stored for each value sent, at every clean path along which the two trees agree in
   * kind: a mask at a sought place becomes what is stored there, and every other value that is not a
   * container is stored as it was sent, a mask at any other place included.
   */
  lemma {:induction false} RestoredExactly(sens: Sensitive, e: Json, c: Json, path: seq<Hop>)
    requires Paired(e, c, path) && Clean(path) && Walk(e, path).Some?
    requires !Walk(e, path).value.Arr? && !Walk(e, path).value.Obj?
    ensures var sent := Walk(e, path).value;
      Walk(Unredact(sens, e, Some(c)), path) ==
        Some(if sent == Str("********") && EndsSought(sens, e, path) then Instead(c, path) else sent)
    decreases |path|
  {
    if path == [] {
      LeafStays(sens, e, Some(c));
    } else {
      CleanRest(path);
      var rest := path[1..];
      match path[0]
      case Member(k) =>
        MemberRestored(sens, e.members, c.members, k);
        if |path| == 1 {
          assert path == [Member(k)];
          LeafStays(sens, e.members[k], if k in c.members then Some(c.members[k]) else None);
        } else {
          LeadsNowhereBelow(e.members[k], rest);
          RestoredExactly(sens, e.members[k], c.members[k], rest);
        }
      case Index(i) =>
        ItemRestored(sens, e.items, c.items, i);
        if |path| == 1 {
          LeafStays(sens, e.items[i], if i < |c.items| then Some(c.items[i]) else None);
        } else {
          RestoredExactly(sens, e.items[i], c.items[i], rest);
        }
    }
  }

  lemma LeadsNowhereBelow(e: Json, path: seq<Hop>)
    requires path != [] && Walk(e, path).Some?
    ensures e.Arr? || e.Obj?
  {
  }
}
