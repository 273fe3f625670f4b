/**
 * Masking the secrets of a configuration tree before it leaves the server, and putting them back
 * when an edited tree returns. Which key names are sensitive is a parameter throughout.
 */
module RedactConfig {
  import opened Wrappers
  import opened Text

  /** A JSON value; an object's members are its own enumerable properties. */
  datatype Json =
    | Null
    | Bool(b: bool)
    | Num(n: real)
    | Str(s: string)
    | Arr(items: seq<Json>)
    | Obj(members: map<string, Json>)

  type Sensitive = string -> bool

  const MASK := "********"

  /** Assigning to this name sets a fresh object's prototype and leaves no own property behind. */
  const PROTO := "__proto__"

  /** `{ key, value, secret: true }` entries. */
  predicate Flagged(members: map<string, Json>) {
    "secret" in members && members["secret"] == Bool(true)
  }

  /** A position whose non-empty string is a secret. */
  predicate SecretAt(sens: Sensitive, flagged: bool, k: string) {
    (flagged && k == "value") || sens(k)
  }

  predicate IsSecret(sens: Sensitive, flagged: bool, k: string, v: Json) {
    SecretAt(sens, flagged, k) && v.Str? && v.s != ""
  }

  /** `redactConfig`. */
  function Redact(sens: Sensitive, c: Json): Json
    decreases c
  {
    match c
    case Arr(items) => Arr(RedactAll(sens, items))
    case Obj(members) =>
      Obj(map k | k in members && k != PROTO ::
        if IsSecret(sens, Flagged(members), k, members[k]) then Str(MASK) else Redact(sens, members[k]))
    case _ => c
  }

  function RedactAll(sens: Sensitive, items: seq<Json>): (r: seq<Json>)
    ensures |r| == |items|
    ensures forall i :: 0 <= i < |items| ==> r[i] == Redact(sens, items[i])
    decreases items
  {
    if items == [] then [] else [Redact(sens, items[0])] + RedactAll(sens, items[1..])
  }

  /** A property of a stored array: an index, or its length. */
  function ItemNamed(items: seq<Json>, k: string, from: nat): (r: Option<Json>)
    requires from <= |items|
    ensures r.Some? ==> k == "length" || exists i :: from <= i < |items| && r.value == items[i]
    decreases |items| - from
  {
    if from == |items| then if k == "length" then Some(Num(|items| as real)) else None
    else if k == Decimal(from) then Some(items[from])
    else ItemNamed(items, k, from + 1)
  }

  /** `stored[k]`, for a stored object or array. */
  function Property(stored: Json, k: string): Option<Json> {
    match stored
    case Obj(members) => if k in members then Some(members[k]) else None
    case Arr(items) => ItemNamed(items, k, 0)
    case _ => None
  }

  /** `stored[k] ?? ""`. */
  function Restored(stored: Json, k: string): Json {
    match Property(stored, k)
    case Some(v) => if v == Null then Str("") else v
    case None => Str("")
  }

  predicate Container(j: Json) {
    j.Arr? || j.Obj?
  }

  /** `unredactConfig`; a stored position that does not exist is `None`. */
  function Unredact(sens: Sensitive, incoming: Json, stored: Option<Json>): Json
    decreases incoming, 1
  {
    if stored == None || !Container(stored.value) then incoming
    else
      match incoming
      case Arr(items) =>
        if stored.value.Arr? then Arr(UnredactAll(sens, items, stored.value.items, 0))
        else Obj(UnredactIndexed(sens, items, stored.value, 0))  // an array met an object: rebuilt as one
      case Obj(members) =>
        Obj(map k | k in members && k != PROTO ::
          if SecretAt(sens, Flagged(members), k) && members[k] == Str(MASK) then Restored(stored.value, k)
          else Unredact(sens, members[k], Property(stored.value, k)))
      case _ => incoming
  }

  function UnredactAll(sens: Sensitive, items: seq<Json>, was: seq<Json>, at: nat): (r: seq<Json>)
    ensures |r| == |items|
    ensures forall i :: 0 <= i < |items| ==>
      r[i] == Unredact(sens, items[i], if at + i < |was| then Some(was[at + i]) else None)
    decreases items, 0
  {
    if items == [] then []
    else
      [Unredact(sens, items[0], if at < |was| then Some(was[at]) else None)]
      + UnredactAll(sens, items[1..], was, at + 1)
  }

  function UnredactIndexed(sens: Sensitive, items: seq<Json>, stored: Json, at: nat): map<string, Json>
    decreases items, 0
  {
    if items == [] then map[]
    else
      var k := Decimal(at);
      UnredactIndexed(sens, items[1..], stored, at + 1)[k :=
        if sens(k) && items[0] == Str(MASK) then Restored(stored, k)
        else Unredact(sens, items[0], Property(stored, k))]
  }

  /* ---------- masking and unmasking are inverse ---------- */

  predicate NoProto(c: Json) {
    match c
    case Arr(items) => forall i | 0 <= i < |items| :: NoProto(items[i])
    case Obj(members) => PROTO !in members && forall k | k in members :: NoProto(members[k])
    case _ => true
  }

  lemma RedactKind(sens: Sensitive, c: Json)
    ensures Redact(sens, c).Arr? <==> c.Arr?
    ensures Redact(sens, c).Obj? <==> c.Obj?
    ensures !Container(c) ==> Redact(sens, c) == c
  {
  }

  lemma FlagKept(sens: Sensitive, members: map<string, Json>)
    ensures Flagged(Redact(sens, Obj(members)).members) == Flagged(members)
  {
    assert "secret" != PROTO;
  }

  function ItemOf(from: Option<Json>, i: nat): Option<Json> {
    if from.Some? && from.value.Arr? then Item(from.value.items, i) else None
  }

  function PropertyOf(from: Option<Json>, k: string): Option<Json> {
    if from.Some? && Container(from.value) then Property(from.value, k) else None
  }

  /**
   * A tree that is recovered when its masked form is restored from some other tree: `from` holds the
   * same string at every secret position (with nothing to restore from, the secret must be the mask
   * itself), no array meets an object, and no member is called `__proto__`.
   */
  ghost predicate Recovers(sens: Sensitive, c: Json, from: Option<Json>)
    decreases c, 0
  {
    match c
    case Arr(items) =>
      !(from.Some? && from.value.Obj?) && forall i | 0 <= i < |items| :: Recovers(sens, items[i], ItemOf(from, i))
    case Obj(members) =>
      PROTO !in members && forall k | k in members :: MemberRecovers(sens, members, k, from)
    case _ => true
  }

  ghost predicate MemberRecovers(sens: Sensitive, members: map<string, Json>, k: string, from: Option<Json>)
    requires k in members
    decreases members[k], 1
  {
    if !IsSecret(sens, Flagged(members), k, members[k]) then Recovers(sens, members[k], PropertyOf(from, k))
    else if from.Some? && Container(from.value) then Property(from.value, k) == Some(members[k])
    else members[k] == Str(MASK)
  }

  /** What restoring the masked form of `c` from `from` gives. */
  function Back(sens: Sensitive, c: Json, from: Option<Json>): Json {
    Unredact(sens, Redact(sens, c), from)
  }

  /** A masked tree is recovered from another tree exactly when that tree agrees with it in this way. */
  lemma {:induction false} RecoversExactly(sens: Sensitive, c: Json, from: Option<Json>)
    ensures Back(sens, c, from) == c <==> Recovers(sens, c, from)
    decreases c
  {
    match c
    case Arr(items) =>
      forall i | 0 <= i < |items|
        ensures Back(sens, items[i], ItemOf(from, i)) == items[i] <==> Recovers(sens, items[i], ItemOf(from, i))
      {
        RecoversExactly(sens, items[i], ItemOf(from, i));
      }
      ItemsRecover(sens, items, from);
    case Obj(members) =>
      forall k | k in members
        ensures Back(sens, members[k], PropertyOf(from, k)) == members[k] <==>
          Recovers(sens, members[k], PropertyOf(from, k))
      {
        RecoversExactly(sens, members[k], PropertyOf(from, k));
      }
      MembersRecover(sens, members, from);
    case _ =>
  }

  lemma ItemsBack(sens: Sensitive, items: seq<Json>, from: Option<Json>) returns (u: seq<Json>)
    requires !(from.Some? && from.value.Obj?)
    ensures Back(sens, Arr(items), from) == Arr(u)
    ensures |u| == |items| && forall i :: 0 <= i < |items| ==> u[i] == Back(sens, items[i], ItemOf(from, i))
  {
    var r := RedactAll(sens, items);
    u := if from.Some? && from.value.Arr? then UnredactAll(sens, r, from.value.items, 0) else r;
  }

  lemma ItemsRecover(sens: Sensitive, items: seq<Json>, from: Option<Json>)
    requires forall i | 0 <= i < |items| ::
      (Back(sens, items[i], ItemOf(from, i)) == items[i] <==> Recovers(sens, items[i], ItemOf(from, i)))
    ensures Back(sens, Arr(items), from) == Arr(items) <==> Recovers(sens, Arr(items), from)
  {
    if from.Some? && from.value.Obj? {
      assert Redact(sens, Arr(items)).Arr?;
      assert Back(sens, Arr(items), from).Obj?;
    } else {
      var u := ItemsBack(sens, items, from);
      assert Recovers(sens, Arr(items), from) <==>
        forall i | 0 <= i < |items| :: Recovers(sens, items[i], ItemOf(from, i));
      hide Back, Recovers;
      if u != items {
        var i :| 0 <= i < |items| && u[i] != items[i];
        assert !Recovers(sens, items[i], ItemOf(from, i));
      }
    }
  }

  lemma MemberBack(sens: Sensitive, members: map<string, Json>, k: string, from: Option<Json>)
    requires k in members && k != PROTO
    ensures var u := Back(sens, Obj(members), from);
      && u.Obj? && k in u.members
      && u.members[k] ==
        if !IsSecret(sens, Flagged(members), k, members[k]) then Back(sens, members[k], PropertyOf(from, k))
        else if from.Some? && Container(from.value) then Restored(from.value, k)
        else Str(MASK)
  {
    FlagKept(sens, members);
    RedactKind(sens, members[k]);
  }

  lemma BackKeys(sens: Sensitive, members: map<string, Json>, from: Option<Json>)
    ensures var u := Back(sens, Obj(members), from);
      u.Obj? && forall k :: k in u.members ==> k in members && k != PROTO
  {
  }

  lemma MembersRecover(sens: Sensitive, members: map<string, Json>, from: Option<Json>)
    requires forall k | k in members ::
      (Back(sens, members[k], PropertyOf(from, k)) == members[k] <==> Recovers(sens, members[k], PropertyOf(from, k)))
    ensures Back(sens, Obj(members), from) == Obj(members) <==> Recovers(sens, Obj(members), from)
  {
    hide Back, Recovers, Flagged, Property, Container, PropertyOf;
    BackKeys(sens, members, from);
    RecoversMembers(sens, members, from);
    var u := Back(sens, Obj(members), from).members;
    forall k | k in members && k != PROTO
      ensures k in u && (u[k] == members[k] <==> MemberRecovers(sens, members, k, from))
    {
      MemberBack(sens, members, k, from);
    }
    hide MemberRecovers;
    if PROTO !in members {
      assert u.Keys == members.Keys;
      if u != members {
        var k :| k in members && u[k] != members[k];
        assert !MemberRecovers(sens, members, k, from);
      }
    }
  }

  lemma RecoversMembers(sens: Sensitive, members: map<string, Json>, from: Option<Json>)
    ensures Recovers(sens, Obj(members), from) <==>
      (PROTO !in members && forall k | k in members :: MemberRecovers(sens, members, k, from))
  {
  }

  lemma {:induction false} RecoversItself(sens: Sensitive, c: Json)
    ensures Recovers(sens, c, Some(c)) <==> NoProto(c)
    decreases c
  {
    match c
    case Arr(items) =>
      forall i | 0 <= i < |items| ensures Recovers(sens, items[i], ItemOf(Some(c), i)) <==> NoProto(items[i]) {
        RecoversItself(sens, items[i]);
      }
    case Obj(members) =>
      forall k | k in members ensures MemberRecovers(sens, members, k, Some(c)) <==> NoProto(members[k]) {
        RecoversItself(sens, members[k]);
      }
    case _ =>
  }

  /**
   * Redacting and restoring from the stored tree gives the tree back exactly when no object in it
   * has a member called `__proto__`.
   */
  lemma RoundTrip(sens: Sensitive, c: Json)
    ensures Unredact(sens, Redact(sens, c), Some(c)) == c <==> NoProto(c)
  {
    RecoversExactly(sens, c, Some(c));
    RecoversItself(sens, c);
  }

  /* ---------- what a masked tree tells ---------- */

  lemma {:induction false} RedactIdempotent(sens: Sensitive, c: Json)
    ensures Redact(sens, Redact(sens, c)) == Redact(sens, c)
    decreases c
  {
    match c
    case Arr(items) =>
      var once := RedactAll(sens, items);
      forall i | 0 <= i < |items| ensures RedactAll(sens, once)[i] == once[i] {
        RedactIdempotent(sens, items[i]);
      }
      assert RedactAll(sens, once) == once;
    case Obj(members) =>
      FlagKept(sens, members);
      var once := Redact(sens, c).members;
      forall k | k in once ensures Redact(sens, Obj(once)).members[k] == once[k] {
        RedactKind(sens, members[k]);
        RedactIdempotent(sens, members[k]);
      }
      assert Redact(sens, Obj(once)).members == once;
    case _ =>
  }

  /** The same tree except for which non-empty strings stand at secret positions, and for `__proto__`. */
  ghost predicate Alike(sens: Sensitive, a: Json, b: Json)
    decreases a, 0
  {
    match a
    case Arr(items) =>
      b.Arr? && |items| == |b.items| && forall i | 0 <= i < |items| :: Alike(sens, items[i], b.items[i])
    case Obj(members) =>
      && b.Obj?
      && (forall k | k != PROTO :: k in members <==> k in b.members)
      && (forall k | k in members && k != PROTO :: MemberAlike(sens, members, b.members, k))
    case _ => a == b
  }

  ghost predicate MemberAlike(sens: Sensitive, a: map<string, Json>, b: map<string, Json>, k: string)
    requires k in a && k in b
    decreases a[k], 1
  {
    var secret := IsSecret(sens, Flagged(a), k, a[k]);
    secret == IsSecret(sens, Flagged(b), k, b[k]) && (secret || Alike(sens, a[k], b[k]))
  }

  /** Two trees look the same once masked exactly when they differ in nothing but their secrets. */
  lemma {:induction false} MaskHidesOnlySecrets(sens: Sensitive, a: Json, b: Json)
    ensures Redact(sens, a) == Redact(sens, b) <==> Alike(sens, a, b)
    decreases a
  {
    RedactKind(sens, a);
    RedactKind(sens, b);
    if a.Arr? && b.Arr? && |a.items| == |b.items| {
      forall i | 0 <= i < |a.items|
        ensures Redact(sens, a.items[i]) == Redact(sens, b.items[i]) <==> Alike(sens, a.items[i], b.items[i])
      {
        MaskHidesOnlySecrets(sens, a.items[i], b.items[i]);
      }
      ItemsAlike(sens, a.items, b.items);
    } else if a.Obj? && b.Obj? {
      forall k | k in a.members && k in b.members
        ensures Redact(sens, a.members[k]) == Redact(sens, b.members[k]) <==> Alike(sens, a.members[k], b.members[k])
      {
        MaskHidesOnlySecrets(sens, a.members[k], b.members[k]);
      }
      MembersAlike(sens, a.members, b.members);
    }
  }

  lemma ItemsAlike(sens: Sensitive, a: seq<Json>, b: seq<Json>)
    requires |a| == |b|
    requires forall i | 0 <= i < |a| :: (Redact(sens, a[i]) == Redact(sens, b[i]) <==> Alike(sens, a[i], b[i]))
    ensures Redact(sens, Arr(a)) == Redact(sens, Arr(b)) <==> Alike(sens, Arr(a), Arr(b))
  {
    var ra, rb := RedactAll(sens, a), RedactAll(sens, b);
    assert Redact(sens, Arr(a)) == Redact(sens, Arr(b)) <==> ra == rb;
    assert Alike(sens, Arr(a), Arr(b)) <==> forall i | 0 <= i < |a| :: Alike(sens, a[i], b[i]);
    hide Redact, Alike;
    if Alike(sens, Arr(a), Arr(b)) {
      assert forall i | 0 <= i < |a| :: ra[i] == rb[i];
    } else {
      var i :| 0 <= i < |a| && !Alike(sens, a[i], b[i]);
      assert ra[i] != rb[i];
    }
  }

  lemma MembersAlike(sens: Sensitive, a: map<string, Json>, b: map<string, Json>)
    requires forall k | k in a && k in b :: (Redact(sens, a[k]) == Redact(sens, b[k]) <==> Alike(sens, a[k], b[k]))
    ensures Redact(sens, Obj(a)) == Redact(sens, Obj(b)) <==> Alike(sens, Obj(a), Obj(b))
  {
    var ra, rb := Redact(sens, Obj(a)).members, Redact(sens, Obj(b)).members;
    assert forall k :: k in ra <==> k in a && k != PROTO;
    assert forall k :: k in rb <==> k in b && k != PROTO;
    assert Redact(sens, Obj(a)) == Redact(sens, Obj(b)) <==> ra == rb;
    FlagKept(sens, a);
    FlagKept(sens, b);
    if forall k | k != PROTO :: k in a <==> k in b {
      assert ra.Keys == rb.Keys;
      forall k | k in ra
        ensures MemberAlike(sens, a, b, k) ==> ra[k] == rb[k]
        ensures ra[k] == rb[k] && Flagged(a) == Flagged(b) ==> MemberAlike(sens, a, b, k)
      {
        RedactKind(sens, a[k]);
        RedactKind(sens, b[k]);
        MemberMasked(sens, a, k);
        MemberMasked(sens, b, k);
      }
    } else {
      var k :| k != PROTO && (k in a) != (k in b);
      assert (k in ra) != (k in rb);
    }
  }

  lemma MemberMasked(sens: Sensitive, members: map<string, Json>, k: string)
    requires k in members && k != PROTO
    ensures var r := Redact(sens, Obj(members)).members;
      k in r && r[k] == if IsSecret(sens, Flagged(members), k, members[k]) then Str(MASK) else Redact(sens, members[k])
  {
  }

  /* ---------- edits ---------- */

  /** No mask stands at a secret position. */
  predicate NoMask(sens: Sensitive, e: Json) {
    match e
    case Arr(items) => forall i | 0 <= i < |items| :: NoMask(sens, items[i])
    case Obj(members) =>
      forall k | k in members ::
        !(SecretAt(sens, Flagged(members), k) && members[k] == Str(MASK)) && NoMask(sens, members[k])
    case _ => true
  }

  /** Somewhere an array meets a stored object, or an object that meets a stored one has a `__proto__` member. */
  predicate Rebuilt(e: Json, stored: Option<Json>)
    decreases e
  {
    stored.Some? && Container(stored.value) &&
    match e
    case Arr(items) =>
      stored.value.Obj? || exists i | 0 <= i < |items| :: Rebuilt(items[i], Item(stored.value.items, i))
    case Obj(members) =>
      PROTO in members || exists k | k in members :: Rebuilt(members[k], Property(stored.value, k))
    case _ => false
  }

  function Item(items: seq<Json>, i: nat): Option<Json> {
    if i < |items| then Some(items[i]) else None
  }

  /** An edited tree without masks comes back as it was sent exactly when nothing in it is rebuilt. */
  lemma {:induction false} MaskFreeUnchanged(sens: Sensitive, e: Json, stored: Option<Json>)
    requires NoMask(sens, e)
    ensures Unredact(sens, e, stored) == e <==> !Rebuilt(e, stored)
    decreases e
  {
    if stored.Some? && Container(stored.value) {
      match e
      case Arr(items) =>
        if stored.value.Arr? {
          var was := stored.value.items;
          forall i | 0 <= i < |items|
            ensures Unredact(sens, items[i], Item(was, i)) == items[i] <==> !Rebuilt(items[i], Item(was, i))
          {
            MaskFreeUnchanged(sens, items[i], Item(was, i));
          }
          ItemsUnchanged(sens, items, was);
        }
      case Obj(members) =>
        forall k | k in members
          ensures Unredact(sens, members[k], Property(stored.value, k)) == members[k] <==>
            !Rebuilt(members[k], Property(stored.value, k))
        {
          MaskFreeUnchanged(sens, members[k], Property(stored.value, k));
        }
        MembersUnchanged(sens, members, stored.value);
      case _ =>
    }
  }

  lemma ItemsUnchanged(sens: Sensitive, items: seq<Json>, was: seq<Json>)
    requires forall i | 0 <= i < |items| ::
      (Unredact(sens, items[i], Item(was, i)) == items[i] <==> !Rebuilt(items[i], Item(was, i)))
    ensures Unredact(sens, Arr(items), Some(Arr(was))) == Arr(items) <==> !Rebuilt(Arr(items), Some(Arr(was)))
  {
    var u := UnredactAll(sens, items, was, 0);
    assert Unredact(sens, Arr(items), Some(Arr(was))) == Arr(u);
    assert Rebuilt(Arr(items), Some(Arr(was))) <==> exists i | 0 <= i < |items| :: Rebuilt(items[i], Item(was, i));
    hide Unredact, Rebuilt;
    assert forall i | 0 <= i < |items| :: u[i] == Unredact(sens, items[i], Item(was, i));
    if u != items {
      var i :| 0 <= i < |items| && u[i] != items[i];
      assert Rebuilt(items[i], Item(was, i));
    }
  }

  lemma MembersWalked(sens: Sensitive, members: map<string, Json>, stored: Json)
    requires NoMask(sens, Obj(members)) && Container(stored)
    ensures var u := Unredact(sens, Obj(members), Some(stored));
      && u.Obj?
      && (forall k :: k in u.members <==> k in members && k != PROTO)
      && (forall k | k in u.members :: u.members[k] == Unredact(sens, members[k], Property(stored, k)))
  {
  }

  lemma MembersRebuilt(members: map<string, Json>, stored: Json)
    requires Container(stored)
    ensures Rebuilt(Obj(members), Some(stored)) <==>
      (PROTO in members || exists k | k in members :: Rebuilt(members[k], Property(stored, k)))
  {
  }

  lemma MembersUnchanged(sens: Sensitive, members: map<string, Json>, stored: Json)
    requires NoMask(sens, Obj(members)) && Container(stored)
    requires forall k | k in members ::
      (Unredact(sens, members[k], Property(stored, k)) == members[k] <==> !Rebuilt(members[k], Property(stored, k)))
    ensures Unredact(sens, Obj(members), Some(stored)) == Obj(members) <==> !Rebuilt(Obj(members), Some(stored))
  {
    hide Unredact, Rebuilt, NoMask, Property, Container;
    MembersWalked(sens, members, stored);
    MembersRebuilt(members, stored);
    var u := Unredact(sens, Obj(members), Some(stored)).members;
    if PROTO !in members {
      if u == members {
        assert forall k | k in members :: !Rebuilt(members[k], Property(stored, k));
      } else {
        assert u.Keys == members.Keys;
        var k :| k in members && u[k] != members[k];
        assert Rebuilt(members[k], Property(stored, k));
      }
    }
  }

  datatype Hop = Member(k: string) | Index(i: nat)

  /** A path through the tree that touches no `secret` flag. */
  predicate Reaches(c: Json, path: seq<Hop>)
    decreases |path|
  {
    path == [] ||
    match path[0]
    case Member(k) => c.Obj? && k in c.members && k != "secret" && Reaches(c.members[k], path[1..])
    case Index(i) => c.Arr? && i < |c.items| && Reaches(c.items[i], path[1..])
  }

  function At(c: Json, path: seq<Hop>): Json
    requires Reaches(c, path)
    decreases |path|
  {
    if path == [] then c
    else
      match path[0]
      case Member(k) => At(c.members[k], path[1..])
      case Index(i) => At(c.items[i], path[1..])
  }

  /** Put `v` at the end of a path; a path that leads nowhere changes nothing. */
  function Put(c: Json, path: seq<Hop>, v: Json): Json
    decreases |path|
  {
    if path == [] then v
    else
      match path[0]
      case Member(k) =>
        if c.Obj? && k in c.members then Obj(c.members[k := Put(c.members[k], path[1..], v)]) else c
      case Index(i) =>
        if c.Arr? && i < |c.items| then Arr(c.items[i := Put(c.items[i], path[1..], v)]) else c
  }

  /** Something that is not the mask goes where the path ends, or further down in a container. */
  predicate Fits(c: Json, rest: seq<Hop>, v: Json) {
    if rest == [] then v != Str(MASK) else Container(c)
  }

  /** Sending the masked tree with `w` at the end of the path stores the tree with `v` there. */
  predicate EditLands(sens: Sensitive, c: Json, path: seq<Hop>, w: Json, v: Json) {
    Unredact(sens, Put(Redact(sens, c), path, w), Some(c)) == Put(c, path, v)
  }

  /**
   * An edit is a matter of the subtree it is made in: everything else is restored, and the edited
   * tree is stored as it should be exactly when the edited subtree is.
   */
  lemma {:induction false} EditIsLocal(sens: Sensitive, c: Json, path: seq<Hop>, rest: seq<Hop>, w: Json, v: Json)
    requires NoProto(c) && Reaches(c, path) && Fits(At(c, path), rest, w)
    ensures EditLands(sens, c, path + rest, w, v) <==> EditLands(sens, At(c, path), rest, w, v)
    decreases |path|
  {
    hide Redact, Unredact;
    if path == [] {
      assert path + rest == rest;
    } else {
      var further := path[1..] + rest;
      assert path + rest == [path[0]] + further;
      match path[0]
      case Index(i) =>
        EditIsLocal(sens, c.items[i], path[1..], rest, w, v);
        EditedItem(sens, c.items, i, further, w, v);
      case Member(k) =>
        EditIsLocal(sens, c.members[k], path[1..], rest, w, v);
        FitsBelow(c.members[k], path[1..], rest, w);
        EditedMember(sens, c.members, k, further, w, v);
    }
  }

  /** What is stored for any value but the mask put anywhere in the masked tree. */
  lemma EditStores(sens: Sensitive, c: Json, path: seq<Hop>, w: Json)
    requires NoProto(c) && Reaches(c, path) && w != Str(MASK)
    ensures Unredact(sens, Put(Redact(sens, c), path, w), Some(c)) == Put(c, path, Unredact(sens, w, Some(At(c, path))))
  {
    hide Redact, Unredact;
    assert path + [] == path;
    EditIsLocal(sens, c, path, [], w, Unredact(sens, w, Some(At(c, path))));
  }

  /** So that is the right thing exactly when it is so for the subtree. */
  lemma EditStoresExactly(sens: Sensitive, c: Json, path: seq<Hop>, w: Json, v: Json)
    requires NoProto(c) && Reaches(c, path) && w != Str(MASK)
    ensures Unredact(sens, Put(Redact(sens, c), path, w), Some(c)) == Put(c, path, v)
       <==> Unredact(sens, w, Some(At(c, path))) == v
  {
    hide Redact, Unredact;
    assert path + [] == path;
    EditIsLocal(sens, c, path, [], w, v);
  }

  lemma FitsBelow(c: Json, path: seq<Hop>, rest: seq<Hop>, v: Json)
    requires Reaches(c, path) && Fits(At(c, path), rest, v)
    ensures Fits(c, path + rest, v)
  {
    if path == [] {
      assert path + rest == rest;
    }
  }

  /**
   * Putting a value without masks anywhere in the masked tree and restoring gives the stored tree
   * with that one edit exactly when nothing in the value is rebuilt: every other secret is back.
   */
  lemma EditOneValue(sens: Sensitive, c: Json, path: seq<Hop>, v: Json)
    requires NoProto(c) && Reaches(c, path) && NoMask(sens, v) && v != Str(MASK)
    ensures Unredact(sens, Put(Redact(sens, c), path, v), Some(c)) == Put(c, path, v) <==>
      !Rebuilt(v, Some(At(c, path)))
  {
    hide Redact, Unredact, Rebuilt, NoMask;
    EditStoresExactly(sens, c, path, v, v);
    MaskFreeUnchanged(sens, v, Some(At(c, path)));
  }

  lemma EditedItem(sens: Sensitive, items: seq<Json>, i: nat, rest: seq<Hop>, w: Json, v: Json)
    requires i < |items| && NoProto(Arr(items))
    ensures EditLands(sens, Arr(items), [Index(i)] + rest, w, v) <==> EditLands(sens, items[i], rest, w, v)
  {
    assert ([Index(i)] + rest)[1..] == rest;
    var edited := items[i := Put(items[i], rest, v)];
    var e := RedactAll(sens, items)[i := Put(Redact(sens, items[i]), rest, w)];
    var u := UnredactAll(sens, e, items, 0);
    forall j | 0 <= j < |items| && j != i ensures u[j] == edited[j] {
      RoundTrip(sens, items[j]);
    }
    assert u[i] == Unredact(sens, e[i], Some(items[i]));
    assert u == edited <==> u[i] == edited[i];
  }

  lemma PutKeepsPlace(sens: Sensitive, members: map<string, Json>, k: string, rest: seq<Hop>, v: Json)
    requires k in members && k != PROTO && Fits(members[k], rest, v)
    ensures var r := Redact(sens, Obj(members)).members;
      && k in r
      && Put(r[k], rest, v) == Put(Redact(sens, members[k]), rest, v)
      && Put(r[k], rest, v) != Str(MASK)
  {
    RedactKind(sens, members[k]);
    MemberMasked(sens, members, k);
  }

  lemma MaskedEdit(sens: Sensitive, members: map<string, Json>, k: string, rest: seq<Hop>, w: Json, v: Json)
    returns (e: map<string, Json>)
    requires k in members && k != "secret" && NoProto(Obj(members)) && Fits(members[k], rest, w)
    ensures Put(Redact(sens, Obj(members)), [Member(k)] + rest, w) == Obj(e)
    ensures Put(Obj(members), [Member(k)] + rest, v) == Obj(members[k := Put(members[k], rest, v)])
    ensures e.Keys == members.Keys && Flagged(e) == Flagged(members)
    ensures e[k] == Put(Redact(sens, members[k]), rest, w) && e[k] != Str(MASK)
    ensures forall j :: j in members && j != k ==>
      j in Redact(sens, Obj(members)).members && e[j] == Redact(sens, Obj(members)).members[j]
  {
    PutKeepsPlace(sens, members, k, rest, w);
    e := Redact(sens, Obj(members)).members[k := Put(Redact(sens, members[k]), rest, w)];
    assert ([Member(k)] + rest)[1..] == rest;
    FlagKept(sens, members);
  }

  lemma EditedMember(sens: Sensitive, members: map<string, Json>, k: string, rest: seq<Hop>, w: Json, v: Json)
    requires k in members && k != "secret" && NoProto(Obj(members)) && Fits(members[k], rest, w)
    ensures EditLands(sens, Obj(members), [Member(k)] + rest, w, v) <==> EditLands(sens, members[k], rest, w, v)
  {
    var e := MaskedEdit(sens, members, k, rest, w, v);
    assert PROTO !in members;
    var u := Unredact(sens, Obj(e), Some(Obj(members))).members;
    assert forall j :: j in u <==> j in members;
    RestoredMember(sens, members, e, k);
    hide Redact, Unredact, NoProto, Put, Flagged, SecretAt, Fits, Restored;
    var edited := members[k := Put(members[k], rest, v)];
    forall j | j in members && j != k ensures u[j] == edited[j] {
      OtherMember(sens, members, e, j);
    }
    assert u == edited <==> u[k] == edited[k];
  }

  lemma OtherMember(sens: Sensitive, members: map<string, Json>, e: map<string, Json>, j: string)
    requires j in members && j in e && NoProto(Obj(members)) && Flagged(e) == Flagged(members)
    requires j in Redact(sens, Obj(members)).members && e[j] == Redact(sens, Obj(members)).members[j]
    ensures var u := Unredact(sens, Obj(e), Some(Obj(members)));
      u.Obj? && j in u.members && u.members[j] == members[j]
  {
    assert j != PROTO;
    hide Redact, Unredact, NoProto;
    RestoredMember(sens, members, e, j);
    BackFromMask(sens, members, j);
  }

  lemma RestoredMember(sens: Sensitive, members: map<string, Json>, e: map<string, Json>, j: string)
    requires j in members && j in e && j != PROTO
    ensures var u := Unredact(sens, Obj(e), Some(Obj(members)));
      u.Obj? && j in u.members
      && u.members[j] == if SecretAt(sens, Flagged(e), j) && e[j] == Str(MASK) then Restored(Obj(members), j)
                         else Unredact(sens, e[j], Some(members[j]))
  {
  }

  lemma BackFromMask(sens: Sensitive, members: map<string, Json>, j: string)
    requires j in members && NoProto(Obj(members))
    ensures var r := Redact(sens, Obj(members)).members;
      j in r && members[j] == if SecretAt(sens, Flagged(members), j) && r[j] == Str(MASK) then Restored(Obj(members), j)
                              else Unredact(sens, r[j], Some(members[j]))
  {
    RoundTrip(sens, members[j]);
    MemberMasked(sens, members, j);
    RedactKind(sens, members[j]);
  }

  /* ---------- edits that go wrong ---------- */

  function Without(items: seq<Json>, i: nat): seq<Json>
    requires i < |items|
  {
    items[..i] + items[i + 1..]
  }

  /**
   * The entry at position `j` of the shortened array is right: it did not move, or it is recovered
   * from the one before it.
   */
  ghost predicate EntryRight(sens: Sensitive, items: seq<Json>, i: nat, j: nat)
    requires i < |items| && j < |items| - 1
  {
    if j < i then NoProto(items[j]) else Recovers(sens, items[j + 1], Some(items[j]))
  }

  /**
   * Arrays are restored by position. Deleting an entry of an array anywhere in the masked tree
   * stores the tree without that entry, and with everything else as it was, exactly when every later
   * entry of the array can be recovered from the one before it.
   */
  lemma DeletionLandsExactly(sens: Sensitive, c: Json, path: seq<Hop>, i: nat)
    requires NoProto(c) && Reaches(c, path) && At(c, path).Arr? && i < |At(c, path).items|
    ensures var items := At(c, path).items;
      var sent := Put(Redact(sens, c), path, Arr(Without(Redact(sens, Arr(items)).items, i)));
      Unredact(sens, sent, Some(c)) == Put(c, path, Arr(Without(items, i)))
      <==> forall j | i <= j < |items| - 1 :: Recovers(sens, items[j + 1], Some(items[j]))
  {
    hide Redact, Unredact, Recovers;
    var items := At(c, path).items;
    var w := Arr(Without(RedactAll(sens, items), i));
    EditStoresExactly(sens, c, path, w, Arr(Without(items, i)));
    assert Redact(sens, Arr(items)).items == RedactAll(sens, items) by { ShownItems(sens, items); }
    DeletionFromArray(sens, items, i);
    NoProtoBelow(c, path);
    forall j | 0 <= j < |items| - 1
      ensures EntryRight(sens, items, i, j) <==> (i <= j ==> Recovers(sens, items[j + 1], Some(items[j])))
    {
      EntriesNoProto(items, j);
    }
  }

  lemma EntriesNoProto(items: seq<Json>, j: nat)
    requires NoProto(Arr(items)) && j < |items|
    ensures NoProto(items[j])
  {
  }

  lemma ShownItems(sens: Sensitive, items: seq<Json>)
    ensures Redact(sens, Arr(items)) == Arr(RedactAll(sens, items))
  {
  }

  /** The array by itself, where an entry in front of the deleted one may also fail to come back. */
  lemma DeletionFromArray(sens: Sensitive, items: seq<Json>, i: nat)
    requires i < |items|
    ensures Unredact(sens, Arr(Without(Redact(sens, Arr(items)).items, i)), Some(Arr(items))) == Arr(Without(items, i))
       <==> forall j | 0 <= j < |items| - 1 :: EntryRight(sens, items, i, j)
  {
    var e, left := Without(RedactAll(sens, items), i), Without(items, i);
    var u := UnredactAll(sens, e, items, 0);
    assert Unredact(sens, Arr(e), Some(Arr(items))) == Arr(u);
    hide Redact, Unredact, EntryRight;
    forall j | 0 <= j < |left| ensures u[j] == left[j] <==> EntryRight(sens, items, i, j) {
      assert u[j] == Unredact(sens, e[j], Some(items[j]));
      EntryBack(sens, items, i, j);
    }
  }

  lemma WithoutAt(items: seq<Json>, i: nat, j: nat)
    requires i < |items| && j < |items| - 1
    ensures |Without(items, i)| == |items| - 1 && Without(items, i)[j] == if j < i then items[j] else items[j + 1]
  {
  }

  lemma EntryBack(sens: Sensitive, items: seq<Json>, i: nat, j: nat)
    requires i < |items| && j < |items| - 1
    ensures Unredact(sens, Without(RedactAll(sens, items), i)[j], Some(items[j])) == Without(items, i)[j] <==>
      EntryRight(sens, items, i, j)
  {
    hide Redact, Unredact, Recovers, NoProto, Without;
    WithoutAt(items, i, j);
    WithoutAt(RedactAll(sens, items), i, j);
    if j < i {
      RoundTrip(sens, items[j]);
    } else {
      RecoversExactly(sens, items[j + 1], Some(items[j]));
    }
  }

  /** An environment entry: flagged secret, with a non-empty string value. */
  predicate SecretEntry(m: map<string, Json>) {
    Flagged(m) && "value" in m && m["value"].Str? && m["value"].s != ""
  }

  /**
   * So wherever the array is, the secret entry that follows a deleted one gets the deleted one's
   * value, and what is stored is wrong unless the two values are the same.
   */
  lemma DeletingAnEntryMovesItsSecret(sens: Sensitive, c: Json, path: seq<Hop>, i: nat, a: map<string, Json>,
                                      b: map<string, Json>)
    returns (saved: seq<Json>)
    requires NoProto(c) && Reaches(c, path) && At(c, path).Arr? && i + 1 < |At(c, path).items|
    requires At(c, path).items[i] == Obj(a) && At(c, path).items[i + 1] == Obj(b) && SecretEntry(a) && SecretEntry(b)
    ensures var items := At(c, path).items;
      var sent := Put(Redact(sens, c), path, Arr(Without(Redact(sens, Arr(items)).items, i)));
      && Unredact(sens, sent, Some(c)) == Put(c, path, Arr(saved))
      && |saved| == |items| - 1 && saved[i].Obj? && "value" in saved[i].members
      && saved[i].members["value"] == a["value"]
      && (a["value"] != b["value"] ==> Unredact(sens, sent, Some(c)) != Put(c, path, Arr(Without(items, i))))
  {
    var items := At(c, path).items;
    ShownItems(sens, items);
    var w := Arr(Without(RedactAll(sens, items), i));
    saved := SecretMovedHere(sens, items, i, a, b);
    hide Redact, Unredact;
    EditStores(sens, c, path, w);
    EditStoresExactly(sens, c, path, w, Arr(Without(items, i)));
  }

  lemma SecretMovedHere(sens: Sensitive, items: seq<Json>, i: nat, a: map<string, Json>, b: map<string, Json>)
    returns (u: seq<Json>)
    requires i + 1 < |items| && items[i] == Obj(a) && items[i + 1] == Obj(b) && SecretEntry(a) && SecretEntry(b)
    ensures Unredact(sens, Arr(Without(RedactAll(sens, items), i)), Some(Arr(items))) == Arr(u)
    ensures |u| == |items| - 1 && u[i].Obj? && "value" in u[i].members && u[i].members["value"] == a["value"]
    ensures a["value"] != b["value"] ==> u != Without(items, i)
  {
    var e := Without(RedactAll(sens, items), i);
    u := UnredactAll(sens, e, items, 0);
    assert e[i] == Redact(sens, Obj(b)) && u[i] == Back(sens, Obj(b), Some(Obj(a)));
    MemberBack(sens, b, "value", Some(Obj(a)));
    assert Property(Obj(a), "value") == Some(a["value"]);
    assert Without(items, i)[i] == Obj(b);
    assert u[i].members["value"] == a["value"];
  }

  /** Unmasking still finds the value without the flag, or there is no value to find. */
  predicate ValueSurvives(sens: Sensitive, m: map<string, Json>) {
    sens("value") || !SecretEntry(m) || m["value"] == Str(MASK)
  }

  /**
   * Clearing the `secret` flag of an object anywhere in the masked tree stores that edit and nothing
   * else exactly when the object has no masked value, or one that its key's name masks anyway.
   */
  lemma ClearingTheFlagExactly(sens: Sensitive, c: Json, path: seq<Hop>)
    requires NoProto(c) && Reaches(c, path) && At(c, path).Obj? && Flagged(At(c, path).members)
    ensures var flag := path + [Member("secret")];
      Unredact(sens, Put(Redact(sens, c), flag, Bool(false)), Some(c)) == Put(c, flag, Bool(false))
      <==> ValueSurvives(sens, At(c, path).members)
  {
    hide Redact, Unredact;
    var m := At(c, path).members;
    EditIsLocal(sens, c, path, [Member("secret")], Bool(false), Bool(false));
    NoProtoBelow(c, path);
    ClearingHere(sens, m);
  }

  lemma {:induction false} NoProtoBelow(c: Json, path: seq<Hop>)
    requires NoProto(c) && Reaches(c, path)
    ensures NoProto(At(c, path))
    decreases |path|
  {
    if path != [] {
      match path[0]
      case Member(k) => NoProtoBelow(c.members[k], path[1..]);
      case Index(i) => NoProtoBelow(c.items[i], path[1..]);
    }
  }

  lemma ClearingHere(sens: Sensitive, m: map<string, Json>)
    requires Flagged(m) && NoProto(Obj(m))
    ensures EditLands(sens, Obj(m), [Member("secret")], Bool(false), Bool(false)) <==> ValueSurvives(sens, m)
  {
    var e := Redact(sens, Obj(m)).members["secret" := Bool(false)];
    ClearedForm(sens, m);
    var u := Unredact(sens, Obj(e), Some(Obj(m))).members;
    assert forall k :: k in u <==> k in m;
    assert "value" !in m ==> ValueSurvives(sens, m);
    hide Redact, Unredact, Put, ValueSurvives, NoProto;
    var cleared := m["secret" := Bool(false)];
    forall k | k in m ensures u[k] == cleared[k] <==> k != "value" || ValueSurvives(sens, m) {
      ClearedAt(sens, m, e, k);
    }
    hide Flagged;
    if u == cleared {
      assert "value" in m ==> u["value"] == cleared["value"];
    } else {
      assert u.Keys == cleared.Keys;
    }
  }

  lemma ClearedAt(sens: Sensitive, m: map<string, Json>, e: map<string, Json>, k: string)
    requires Flagged(m) && NoProto(Obj(m)) && k in m && e == Redact(sens, Obj(m)).members["secret" := Bool(false)]
    ensures var u := Unredact(sens, Obj(e), Some(Obj(m)));
      && u.Obj? && k in u.members
      && (u.members[k] == m["secret" := Bool(false)][k] <==> k != "value" || ValueSurvives(sens, m))
  {
    ClearedForm(sens, m);
    MemberMasked(sens, m, k);
    hide Redact, Unredact, Put, ValueSurvives;
    RestoredMember(sens, m, e, k);
    if k != "secret" {
      ClearedMember(sens, m, k);
    } else {
      ScalarsStay(sens, m[k]);
    }
  }

  lemma ScalarsStay(sens: Sensitive, stored: Json)
    ensures Unredact(sens, Bool(false), Some(stored)) == Bool(false)
    ensures Unredact(sens, Str(MASK), Some(stored)) == Str(MASK)
  {
  }

  lemma ClearedForm(sens: Sensitive, m: map<string, Json>)
    requires Flagged(m)
    ensures var e := Redact(sens, Obj(m)).members["secret" := Bool(false)];
      && Put(Redact(sens, Obj(m)), [Member("secret")], Bool(false)) == Obj(e) && !Flagged(e)
      && Put(Obj(m), [Member("secret")], Bool(false)) == Obj(m["secret" := Bool(false)])
  {
    FlagKept(sens, m);
    assert [Member("secret")][1..] == [];
  }

  lemma ClearedMember(sens: Sensitive, m: map<string, Json>, k: string)
    requires Flagged(m) && NoProto(Obj(m)) && k in m && k != "secret"
    ensures var r := Redact(sens, Obj(m)).members;
      && k in r
      && (m[k] == (if sens(k) && r[k] == Str(MASK) then Restored(Obj(m), k) else Unredact(sens, r[k], Some(m[k])))
          <==> k != "value" || ValueSurvives(sens, m))
  {
    MemberMasked(sens, m, k);
    RoundTrip(sens, m[k]);
    RedactKind(sens, m[k]);
    ScalarsStay(sens, m[k]);
    hide Redact, Unredact;
  }

  /** What is stored otherwise is the mask itself, wherever the object is. */
  lemma ClearingTheFlagStoresTheMask(sens: Sensitive, c: Json, path: seq<Hop>) returns (saved: map<string, Json>)
    requires NoProto(c) && Reaches(c, path) && At(c, path).Obj? && SecretEntry(At(c, path).members) && !sens("value")
    ensures var m := At(c, path).members;
      var sent := Put(Redact(sens, c), path, Obj(Redact(sens, Obj(m)).members["secret" := Bool(false)]));
      && Unredact(sens, sent, Some(c)) == Put(c, path, Obj(saved))
      && "value" in saved && saved["value"] == Str(MASK)
  {
    var m := At(c, path).members;
    var e := Redact(sens, Obj(m)).members["secret" := Bool(false)];
    MemberMasked(sens, m, "value");
    assert !Flagged(e);
    saved := Unredact(sens, Obj(e), Some(Obj(m))).members;
    hide Redact, Unredact;
    EditStores(sens, c, path, Obj(e));
  }

  /** An entry with no stored counterpart keeps whatever was sent, masks included, wherever the array is. */
  lemma NewEntriesAreStoredAsSent(sens: Sensitive, c: Json, path: seq<Hop>, items: seq<Json>) returns (saved: seq<Json>)
    requires NoProto(c) && Reaches(c, path) && At(c, path).Arr?
    ensures Unredact(sens, Put(Redact(sens, c), path, Arr(items)), Some(c)) == Put(c, path, Arr(saved))
    ensures |saved| == |items| && forall i :: |At(c, path).items| <= i < |items| ==> saved[i] == items[i]
  {
    saved := UnredactAll(sens, items, At(c, path).items, 0);
    assert Unredact(sens, Arr(items), Some(At(c, path))) == Arr(saved);
    hide Redact, Unredact;
    EditStores(sens, c, path, Arr(items));
  }
}
