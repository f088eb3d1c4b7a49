/** The SD-JWT disclosure resolver: a recursive walk written as functions, and the explicit-stack driver of
    suspended walks that computes it. */
module Resolution {
  import opened Values

  const MAX_JSON_DEPTH: nat := 512

  /** The library calls the resolver depends on: the strict decoder of one disclosure (base64url, then JSON) and
      the SHA-256 digest of its text. Both are arbitrary functions here; nothing says digests are acyclic. */
  datatype Codec = Codec(decode: string -> Option<Json>, digest: string -> string)

  datatype Error =
    | UnsupportedAlg
    | MalformedDisclosure
    | DisclosureArity
    | DuplicateDisclosure
    | TooDeep
    | SdNotDigestList
    | MetTwice
    | ObjectDisclosureArity
    | NameNotString
    | ReservedName
    | NameCollision
    | PlaceholderNotString
    | ArrayDisclosureArity
    | UnmatchedDisclosures

  datatype Result<+T> = Ok(value: T) | Err(error: Error)

  /** `by_digest`: the decoded disclosure behind each digest. */
  type Table = map<string, seq<Json>>

  /** What the walk has recorded: the digests met (as a set and in order) and those whose disclosure was used. */
  datatype Ledger = Ledger(seen: set<string>, encountered: seq<string>, used: set<string>)

  const Blank := Ledger({}, [], {})

  predicate IsReserved(key: string) { key == "_sd" || key == "_sd_alg" }

  /** A list element standing for a hidden one: an object whose only key is `...`. */
  predicate IsPlaceholder(j: Json) {
    j.Obj? && |j.members| == 1 && j.members[0].key == "..."
  }

  predicate AllStrings(xs: seq<Json>) {
    forall i :: 0 <= i < |xs| ==> xs[i].Str?
  }

  function Strings(xs: seq<Json>): (r: seq<string>)
    requires AllStrings(xs)
    ensures |r| == |xs| && forall i :: 0 <= i < |xs| ==> r[i] == xs[i].s
  {
    seq(|xs|, i requires 0 <= i < |xs| => xs[i].s)
  }

  /** The digests of an object: its `_sd` member, absent or a list of strings, else None. */
  function DigestsOf(ms: seq<Member>): (r: Option<seq<string>>)
    ensures !Has(ms, "_sd") ==> r == Some([])
    ensures Has(ms, "_sd") && r.Some? ==> exists xs :: Lookup(ms, "_sd") == Some(Arr(xs)) && |xs| == |r.value| &&
                                                  forall i :: 0 <= i < |xs| ==> xs[i] == Str(r.value[i])
    ensures r.None? ==> match Lookup(ms, "_sd").value case Arr(xs) => exists x :: x in xs && !x.Str? case _ => true
  {
    match Lookup(ms, "_sd")
    case None => Some([])
    case Some(Arr(xs)) => if AllStrings(xs) then Some(Strings(xs)) else None
    case Some(_) => None
  }

  /** The claim an object disclosure adds to the members collected so far. */
  function DisclosedClaim(arr: seq<Json>, out: seq<Member>): (r: Result<Member>)
    ensures r == Err(ObjectDisclosureArity) <==> |arr| != 3
    ensures r == Err(NameNotString) <==> |arr| == 3 && !arr[1].Str?
    ensures r == Err(ReservedName) <==> |arr| == 3 && arr[1] in [Str("_sd"), Str("...")]
    ensures r == Err(NameCollision) ==> exists m :: m in out && arr[1] == Str(m.key)
    ensures r.Ok? ==> arr[1] == Str(r.value.key) && arr[2] == r.value.val && !Has(out, r.value.key)
  {
    if |arr| != 3 then Err(ObjectDisclosureArity)
    else if !arr[1].Str? then Err(NameNotString)
    else if arr[1].s == "_sd" || arr[1].s == "..." then Err(ReservedName)
    else if Has(out, arr[1].s) then Err(NameCollision)
    else Ok(Member(arr[1].s, arr[2]))
  }

  function Noted(led: Ledger, dig: string): Ledger {
    led.(seen := led.seen + {dig}, encountered := led.encountered + [dig])
  }

  function Spent(led: Ledger, dig: string): Ledger {
    led.(used := led.used + {dig})
  }

  // ------------------------------------------------------------------ the recursive walk

  /** What only the walk can find wrong. */
  predicate WalkFault(e: Error) {
    e in {TooDeep, SdNotDigestList, MetTwice, ObjectDisclosureArity, NameNotString, ReservedName, NameCollision,
          PlaceholderNotString, ArrayDisclosureArity}
  }

  function Room(depth: nat): nat {
    if depth > MAX_JSON_DEPTH then 0 else MAX_JSON_DEPTH + 1 - depth
  }

  function Walk(t: Table, node: Json, depth: nat, led: Ledger): (r: Result<(Json, Ledger)>)
    ensures r.Err? ==> WalkFault(r.error)
    decreases Room(depth), 3, 0
  {
    if !IsContainer(node) then Ok((node, led))
    else if depth > MAX_JSON_DEPTH then Err(TooDeep)
    else if node.Obj? then WalkMembers(t, node.members, node.members, [], depth, led)
    else WalkItems(t, node.items, [], depth, led)
  }

  /** The members `rest` of the object `all` still to be copied, then its digests. */
  function WalkMembers(t: Table, all: seq<Member>, rest: seq<Member>, out: seq<Member>, depth: nat, led: Ledger)
    : (r: Result<(Json, Ledger)>)
    requires depth <= MAX_JSON_DEPTH
    ensures r.Err? ==> WalkFault(r.error)
    decreases Room(depth), 2, |rest|
  {
    if rest == [] then
      match DigestsOf(all)
      case None => Err(SdNotDigestList)
      case Some(ds) => WalkDigests(t, ds, out, depth, led)
    else
      match WalkMember(t, rest[0], out, depth, led)
      case Err(e) => Err(e)
      case Ok((out', led')) => WalkMembers(t, all, rest[1..], out', depth, led')
  }

  /** What one member adds: `_sd` and `_sd_alg` nothing, any other its resolved value. */
  function WalkMember(t: Table, m: Member, out: seq<Member>, depth: nat, led: Ledger): (r: Result<(seq<Member>, Ledger)>)
    requires depth <= MAX_JSON_DEPTH
    ensures r.Err? ==> WalkFault(r.error)
    decreases Room(depth), 0, 0
  {
    if IsReserved(m.key) then Ok((out, led))
    else
      match Walk(t, m.val, depth + 1, led)
      case Err(e) => Err(e)
      case Ok((v, led')) => Ok((Put(out, m.key, v), led'))
  }

  function WalkDigests(t: Table, rest: seq<string>, out: seq<Member>, depth: nat, led: Ledger): (r: Result<(Json, Ledger)>)
    requires depth <= MAX_JSON_DEPTH
    ensures r.Err? ==> WalkFault(r.error)
    decreases Room(depth), 1, |rest|
  {
    if rest == [] then Ok((Obj(out), led))
    else
      match WalkDigest(t, rest[0], out, depth, led)
      case Err(e) => Err(e)
      case Ok((out', led')) => WalkDigests(t, rest[1..], out', depth, led')
  }

  /** What one digest adds to the members: nothing when it has no disclosure. */
  function WalkDigest(t: Table, dig: string, out: seq<Member>, depth: nat, led: Ledger): (r: Result<(seq<Member>, Ledger)>)
    requires depth <= MAX_JSON_DEPTH
    ensures r.Err? ==> WalkFault(r.error)
    decreases Room(depth), 0, 0
  {
    if dig in led.seen then Err(MetTwice)
    else if dig !in t then Ok((out, Noted(led, dig)))
    else
      match DisclosedClaim(t[dig], out)
      case Err(e) => Err(e)
      case Ok(Member(name, claim)) =>
        match Walk(t, claim, depth + 1, Noted(led, dig))
        case Err(e) => Err(e)
        case Ok((v, led')) => Ok((Put(out, name, v), Spent(led', dig)))
  }

  function WalkItems(t: Table, rest: seq<Json>, out: seq<Json>, depth: nat, led: Ledger): (r: Result<(Json, Ledger)>)
    requires depth <= MAX_JSON_DEPTH
    ensures r.Err? ==> WalkFault(r.error)
    decreases Room(depth), 1, |rest|
  {
    if rest == [] then Ok((Arr(out), led))
    else
      match WalkItem(t, rest[0], depth, led)
      case Err(e) => Err(e)
      case Ok((vs, led')) => WalkItems(t, rest[1..], out + vs, depth, led')
  }

  /** What one list element becomes: a placeholder with no disclosure leaves nothing. */
  function WalkItem(t: Table, x: Json, depth: nat, led: Ledger): (r: Result<(seq<Json>, Ledger)>)
    requires depth <= MAX_JSON_DEPTH
    ensures r.Err? ==> WalkFault(r.error)
    decreases Room(depth), 0, 0
  {
    if !IsPlaceholder(x) then
      match Walk(t, x, depth + 1, led)
      case Err(e) => Err(e)
      case Ok((v, led')) => Ok(([v], led'))
    else if !x.members[0].val.Str? then Err(PlaceholderNotString)
    else
      var dig := x.members[0].val.s;
      if dig in led.seen then Err(MetTwice)
      else if dig !in t then Ok(([], Noted(led, dig)))
      else if |t[dig]| != 2 then Err(ArrayDisclosureArity)
      else
        match Walk(t, t[dig][1], depth + 1, Noted(led, dig))
        case Err(e) => Err(e)
        case Ok((v, led')) => Ok(([v], Spent(led', dig)))
  }

  /** `by_digest` built from the disclosures in the order given. */
  function BuildTable(c: Codec, ds: seq<string>, t: Table): (r: Result<Table>)
    ensures r.Err? ==> r.error in {MalformedDisclosure, DisclosureArity, DuplicateDisclosure}
  {
    if ds == [] then Ok(t)
    else
      match c.decode(ds[0])
      case None => Err(MalformedDisclosure)
      case Some(j) =>
        if !j.Arr? || |j.items| !in {2, 3} then Err(DisclosureArity)
        else if c.digest(ds[0]) in t then Err(DuplicateDisclosure)
        else BuildTable(c, ds[1..], t[c.digest(ds[0]) := j.items])
  }

  predicate AlgAccepted(payload: seq<Member>) {
    match Lookup(payload, "_sd_alg")
    case None => true
    case Some(v) => v == Str("sha-256")
  }

  /** The whole resolution as a function: the meaning the method below is proved to compute. */
  function Resolve(c: Codec, payload: seq<Member>, ds: seq<string>): Result<(Json, Ledger)> {
    if !AlgAccepted(payload) then Err(UnsupportedAlg)
    else
      match BuildTable(c, ds, map[])
      case Err(e) => Err(e)
      case Ok(t) =>
        match Walk(t, Obj(payload), 1, Blank)
        case Err(e) => Err(e)
        case Ok((v, led)) => if t.Keys - led.used != {} then Err(UnmatchedDisclosures) else Ok((v, led))
  }

  // ------------------------------------------------------------------ the explicit stack

  /** A suspended walk of one node: where it stopped, waiting for the resolved value of the child it yielded. */
  datatype Frame =
    | Fresh(node: Json, depth: nat)
    | AtMember(all: seq<Member>, members: seq<Member>, key: string, claims: seq<Member>, depth: nat)
    | AtDigest(digests: seq<string>, name: string, dig: string, claims: seq<Member>, depth: nat)
    | AtItem(elements: seq<Json>, hidden: Option<string>, items: seq<Json>, depth: nat)

  predicate FrameOk(f: Frame) { f.Fresh? || f.depth <= MAX_JSON_DEPTH }

  /** What is left of a suspended walk once it is sent `v`. */
  function Resume(t: Table, f: Frame, v: Json, led: Ledger): Result<(Json, Ledger)>
    requires FrameOk(f)
  {
    match f
    case Fresh(node, depth) => Walk(t, node, depth, led)
    case AtMember(all, rest, key, out, depth) => WalkMembers(t, all, rest, Put(out, key, v), depth, led)
    case AtDigest(rest, name, dig, out, depth) => WalkDigests(t, rest, Put(out, name, v), depth, Spent(led, dig))
    case AtItem(rest, hidden, out, depth) =>
      WalkItems(t, rest, out + [v], depth, if hidden.Some? then Spent(led, hidden.value) else led)
  }

  predicate StackOk(stack: seq<Frame>) {
    forall i :: 0 <= i < |stack| ==> FrameOk(stack[i])
  }

  /** What the whole stack still has to compute: each resolved value goes to the walk below. */
  function Unwind(t: Table, stack: seq<Frame>, v: Json, led: Ledger): Result<(Json, Ledger)>
    requires StackOk(stack)
  {
    if stack == [] then Ok((v, led))
    else
      match Resume(t, stack[|stack| - 1], v, led)
      case Err(e) => Err(e)
      case Ok((v', led')) => Unwind(t, stack[..|stack| - 1], v', led')
  }

  // ------------------------------------------------------------------ the work left

  /** Work a disclosure can cause: it is paid once, when its digest is met. */
  function Price(arr: seq<Json>): nat { 3 * ItemsSize(arr) }

  ghost function Pool(t: Table, digests: set<string>): nat
    requires digests <= t.Keys
  {
    if digests == {} then 0
    else
      var d :| d in digests;
      Price(t[d]) + Pool(t, digests - {d})
  }

  lemma PoolTake(t: Table, digests: set<string>, d: string)
    requires digests <= t.Keys && d in digests
    ensures Pool(t, digests) == Price(t[d]) + Pool(t, digests - {d})
    decreases |digests|
  {
    var e :| e in digests && Pool(t, digests) == Price(t[e]) + Pool(t, digests - {e});
    if e != d {
      PoolTake(t, digests - {e}, d);
      PoolTake(t, digests - {d}, e);
      assert digests - {e} - {d} == digests - {d} - {e};
    }
  }

  function SdWork(ms: seq<Member>): nat {
    match DigestsOf(ms) case None => 0 case Some(ds) => 3 * |ds|
  }

  /** Work of copying the plain members. */
  function PlainWork(ms: seq<Member>): nat {
    if ms == [] then 0
    else (if IsReserved(ms[0].key) then 1 else 3 * Size(ms[0].val)) + PlainWork(ms[1..])
  }

  lemma PlainAndSdWork(ms: seq<Member>)
    ensures PlainWork(ms) + SdWork(ms) <= 3 * MembersSize(ms)
  {
    if ms != [] {
      PlainAndSdWork(ms[1..]);
      if ms[0].key == "_sd" && ms[0].val.Arr? && AllStrings(ms[0].val.items) {
        StringsSize(ms[0].val.items);
        PlainWorkBound(ms[1..]);
      } else if ms[0].key == "_sd" {
        PlainWorkBound(ms[1..]);
      }
    }
  }

  lemma PlainWorkBound(ms: seq<Member>)
    ensures PlainWork(ms) <= 3 * MembersSize(ms)
  {}

  lemma StringsSize(xs: seq<Json>)
    requires AllStrings(xs)
    ensures ItemsSize(xs) == |xs|
  {
    if xs != [] { StringsSize(xs[1..]); }
  }

  function FrameWork(f: Frame): nat {
    match f
    case Fresh(node, _) => 3 * Size(node) - 2
    case AtMember(all, rest, _, _, _) => 1 + PlainWork(rest) + SdWork(all)
    case AtDigest(rest, _, _, _, _) => 1 + 3 * |rest|
    case AtItem(rest, _, _, _) => 1 + 3 * ItemsSize(rest)
  }

  function StackWork(stack: seq<Frame>): nat {
    if stack == [] then 0 else FrameWork(stack[|stack| - 1]) + StackWork(stack[..|stack| - 1])
  }

  // ------------------------------------------------------------------ the driver

  datatype Outcome = Yield(child: Json, depth: nat, frame: Frame) | Return(value: Json) | Raise(error: Error)

  ghost function OutcomeWork(o: Outcome): nat {
    if o.Yield? then 3 * Size(o.child) - 2 + FrameWork(o.frame) else 0
  }

  /** `spec` is what one send computes: fail, finish, or resolve the yielded child and carry on. */
  ghost predicate Delivers(t: Table, spec: Result<(Json, Ledger)>, o: Outcome, led: Ledger) {
    match o
    case Raise(e) => spec == Err(e)
    case Return(v) => spec == Ok((v, led))
    case Yield(child, depth, f) =>
      FrameOk(f) &&
      match Walk(t, child, depth, led)
      case Err(e) => spec == Err(e)
      case Ok((v, led')) => spec == Resume(t, f, v, led')
  }

  function Push(stack: seq<Frame>, o: Outcome): seq<Frame>
    requires o.Yield?
  {
    stack + [o.frame] + [Fresh(o.child, o.depth)]
  }

  /** After a yield the stack still computes what the sent walk and the walks below it would. */
  lemma UnwindPush(t: Table, below: seq<Frame>, spec: Result<(Json, Ledger)>, o: Outcome, led: Ledger)
    requires StackOk(below) && o.Yield? && Delivers(t, spec, o, led)
    ensures StackOk(Push(below, o))
    ensures Unwind(t, Push(below, o), Null, led)
         == match spec case Err(e) => Err(e) case Ok((v, led')) => Unwind(t, below, v, led')
    ensures StackWork(Push(below, o)) == OutcomeWork(o) + StackWork(below)
  {
    var one := below + [o.frame];
    assert one[..|below|] == below;
    assert Push(below, o)[..|one|] == one;
    assert StackWork(one) == FrameWork(o.frame) + StackWork(below);
  }

  /** The state the nested functions of the resolver share. */
  class Resolver {
    const byDigest: Table
    var seen: set<string>
    var encountered: seq<string>
    var used: set<string>
    var stack: seq<Frame>
    ghost var ticks: nat  // one per turn of any loop below

    constructor (t: Table)
      ensures byDigest == t && TheLedger() == Blank && stack == [] && ticks == 0
    {
      byDigest, seen, encountered, used, stack, ticks := t, {}, [], {}, [], 0;
    }

    function TheLedger(): Ledger
      reads this
    {
      Ledger(seen, encountered, used)
    }

    /** Work still affordable: that of the disclosures whose digest was not met. */
    ghost function Credit(): nat
      reads this
    {
      Pool(byDigest, byDigest.Keys - seen)
    }

    method Meet(dig: string) returns (isNew: bool)
      modifies `seen, `encountered
      ensures isNew <==> dig !in old(seen)
      ensures isNew ==> TheLedger() == Noted(old(TheLedger()), dig)
      ensures !isNew ==> TheLedger() == old(TheLedger())
      ensures isNew && dig in byDigest ==> Credit() + Price(byDigest[dig]) == old(Credit())
      ensures !isNew || dig !in byDigest ==> Credit() == old(Credit())
    {
      if dig in seen { return false; }
      ghost var before := byDigest.Keys - seen;
      seen := seen + {dig};
      encountered := encountered + [dig];
      if dig in byDigest {
        PoolTake(byDigest, before, dig);
      }
      assert byDigest.Keys - seen == before - {dig};
      assert dig !in byDigest ==> before - {dig} == before;
      return true;
    }

    /** The loop over the plain members of an object. */
    method MemberLoop(all: seq<Member>, members: seq<Member>, claims: seq<Member>, depth: nat) returns (o: Outcome)
      requires depth <= MAX_JSON_DEPTH
      modifies this
      ensures stack == old(stack)
      ensures Delivers(byDigest, old(WalkMembers(byDigest, all, members, claims, depth, TheLedger())), o, TheLedger())
      ensures old(ticks) <= ticks
      ensures ticks + OutcomeWork(o) + Credit() <= old(ticks) + PlainWork(members) + SdWork(all) + old(Credit())
    {
      var rest := members;
      while rest != []
        invariant stack == old(stack) && TheLedger() == old(TheLedger())
        invariant WalkMembers(byDigest, all, rest, claims, depth, TheLedger())
               == old(WalkMembers(byDigest, all, members, claims, depth, TheLedger()))
        invariant old(ticks) <= ticks && ticks + PlainWork(rest) <= old(ticks) + PlainWork(members)
        decreases |rest|
      {
        ticks := ticks + 1;
        var m := rest[0];
        rest := rest[1..];
        if !IsReserved(m.key) {
          return Yield(m.val, depth + 1, AtMember(all, rest, m.key, claims, depth));
        }
      }
      var ds := DigestsOf(all);
      if ds.None? { return Raise(SdNotDigestList); }
      o := DigestLoop(ds.value, claims, depth);
    }

    /** The loop over the entries of `_sd`. */
    method DigestLoop(digests: seq<string>, claims: seq<Member>, depth: nat) returns (o: Outcome)
      requires depth <= MAX_JSON_DEPTH
      modifies this
      ensures stack == old(stack)
      ensures Delivers(byDigest, old(WalkDigests(byDigest, digests, claims, depth, TheLedger())), o, TheLedger())
      ensures old(ticks) <= ticks
      ensures ticks + OutcomeWork(o) + Credit() <= old(ticks) + 3 * |digests| + old(Credit())
    {
      var rest := digests;
      while rest != []
        invariant stack == old(stack)
        invariant WalkDigests(byDigest, rest, claims, depth, TheLedger())
               == old(WalkDigests(byDigest, digests, claims, depth, TheLedger()))
        invariant old(ticks) <= ticks && ticks + 3 * |rest| + Credit() <= old(ticks) + 3 * |digests| + old(Credit())
        decreases |rest|
      {
        ticks := ticks + 1;
        var dig := rest[0];
        rest := rest[1..];
        var isNew := Meet(dig);
        if !isNew { return Raise(MetTwice); }
        if dig in byDigest {
          var claim := DisclosedClaim(byDigest[dig], claims);
          match claim {
            case Err(e) => return Raise(e);
            case Ok(Member(name, v)) =>
              ThreeParts(byDigest[dig]);
              return Yield(v, depth + 1, AtDigest(rest, name, dig, claims, depth));
          }
        }
      }
      return Return(Obj(claims));
    }

    /** The loop over the elements of a list. */
    method ItemLoop(elements: seq<Json>, items: seq<Json>, depth: nat) returns (o: Outcome)
      requires depth <= MAX_JSON_DEPTH
      modifies this
      ensures stack == old(stack)
      ensures Delivers(byDigest, old(WalkItems(byDigest, elements, items, depth, TheLedger())), o, TheLedger())
      ensures old(ticks) <= ticks
      ensures ticks + OutcomeWork(o) + Credit() <= old(ticks) + 3 * ItemsSize(elements) + old(Credit())
    {
      var rest := elements;
      while rest != []
        invariant stack == old(stack)
        invariant WalkItems(byDigest, rest, items, depth, TheLedger())
               == old(WalkItems(byDigest, elements, items, depth, TheLedger()))
        invariant old(ticks) <= ticks && ticks + 3 * ItemsSize(rest) + Credit() <= old(ticks) + 3 * ItemsSize(elements) + old(Credit())
        decreases |rest|
      {
        ticks := ticks + 1;
        var item := rest[0];
        rest := rest[1..];
        if !IsPlaceholder(item) {
          return Yield(item, depth + 1, AtItem(rest, None, items, depth));
        }
        if !item.members[0].val.Str? { return Raise(PlaceholderNotString); }
        var dig := item.members[0].val.s;
        var isNew := Meet(dig);
        if !isNew { return Raise(MetTwice); }
        assert dig !in byDigest ==> items + [] == items;
        if dig in byDigest {
          if |byDigest[dig]| != 2 { return Raise(ArrayDisclosureArity); }
          TwoParts(byDigest[dig]);
          return Yield(byDigest[dig][1], depth + 1, AtItem(rest, Some(dig), items, depth));
        }
      }
      return Return(Arr(items));
    }

    /** `send`: run the suspended walk `f` on the value it waited for, up to its next yield. */
    method Send(f: Frame, value: Json) returns (o: Outcome)
      requires FrameOk(f)
      modifies this
      ensures stack == old(stack)
      ensures Delivers(byDigest, old(Resume(byDigest, f, value, TheLedger())), o, TheLedger())
      ensures old(ticks) <= ticks
      ensures ticks + OutcomeWork(o) + Credit() + 1 <= old(ticks) + FrameWork(f) + old(Credit())
    {
      match f {
        case Fresh(node, depth) =>
          if !IsContainer(node) { return Return(node); }
          if depth > MAX_JSON_DEPTH { return Raise(TooDeep); }
          if node.Obj? {
            PlainAndSdWork(node.members);
            o := MemberLoop(node.members, node.members, [], depth);
          } else {
            o := ItemLoop(node.items, [], depth);
          }
        case AtMember(all, rest, key, out, depth) =>
          o := MemberLoop(all, rest, Put(out, key, value), depth);
        case AtDigest(rest, name, dig, out, depth) =>
          used := used + {dig};
          o := DigestLoop(rest, Put(out, name, value), depth);
        case AtItem(rest, hidden, out, depth) =>
          if hidden.Some? { used := used + {hidden.value}; }
          o := ItemLoop(rest, out + [value], depth);
      }
    }

    /** The driver: no recursion, one suspended walk per level of the node being resolved. */
    method Run(root: Json) returns (r: Result<Json>)
      requires TheLedger() == Blank && ticks == 0
      modifies this
      ensures match Walk(byDigest, root, 1, Blank)
              case Err(e) => r == Err(e)
              case Ok((v, led)) => r == Ok(v) && TheLedger() == led
      ensures ticks <= 3 * Size(root) + Pool(byDigest, byDigest.Keys)
    {
      stack := [Fresh(root, 1)];
      var value := Null;
      assert byDigest.Keys - seen == byDigest.Keys;
      while stack != []
        invariant StackOk(stack)
        invariant Unwind(byDigest, stack, value, TheLedger()) == Walk(byDigest, root, 1, Blank)
        invariant ticks + StackWork(stack) + Credit() <= 3 * Size(root) + Pool(byDigest, byDigest.Keys)
        decreases StackWork(stack) + Credit()
      {
        ticks := ticks + 1;
        var top, below := stack[|stack| - 1], stack[..|stack| - 1];
        ghost var spec := Resume(byDigest, top, value, TheLedger());
        ghost var work := FrameWork(top) + Credit();
        var o := Send(top, value);
        assert OutcomeWork(o) + Credit() < work;
        match o {
          case Raise(e) => return Err(e);
          case Return(v) =>
            stack, value := below, v;
          case Yield(_, _, _) =>
            UnwindPush(byDigest, below, spec, o, TheLedger());
            stack, value := Push(below, o), Null;
        }
      }
      return Ok(value);
    }
  }

  /** The values inside all supplied disclosures. */
  function DisclosuresSize(c: Codec, ds: seq<string>): nat {
    if ds == [] then 0
    else (match c.decode(ds[0]) case Some(Arr(xs)) => ItemsSize(xs) case _ => 0) + DisclosuresSize(c, ds[1..])
  }

  lemma PoolAdd(t: Table, d: string, arr: seq<Json>)
    requires d !in t
    ensures Pool(t[d := arr], t.Keys + {d}) == Price(arr) + Pool(t, t.Keys)
  {
    PoolTake(t[d := arr], t.Keys + {d}, d);
    assert t.Keys + {d} - {d} == t.Keys;
    PoolSame(t, t[d := arr], t.Keys);
  }

  lemma PoolSame(t: Table, t': Table, digests: set<string>)
    requires digests <= t.Keys && digests <= t'.Keys && forall d :: d in digests ==> t[d] == t'[d]
    ensures Pool(t, digests) == Pool(t', digests)
    decreases |digests|
  {
    if digests != {} {
      var d :| d in digests;
      PoolTake(t, digests, d);
      PoolTake(t', digests, d);
      PoolSame(t, t', digests - {d});
    }
  }

  datatype Census = Census(encountered: seq<string>, matched: set<string>)

  /** resolve_disclosures. `work` counts the turns of every loop run: it is bounded by what was supplied, with no
      assumption on which digests occur where. */
  method ResolveDisclosures(c: Codec, payload: seq<Member>, disclosures: seq<string>)
    returns (r: Result<Json>, census: Census, ghost work: nat)
    ensures match Resolve(c, payload, disclosures)
            case Err(e) => r == Err(e)
            case Ok((v, led)) => r == Ok(v) && census == Census(led.encountered, led.used)
    ensures work <= |disclosures| + 3 * (Size(Obj(payload)) + DisclosuresSize(c, disclosures))
  {
    census, work := Census([], {}), 0;
    if !AlgAccepted(payload) { return Err(UnsupportedAlg), census, work; }
    var byDigest: Table := map[];
    var rest := disclosures;
    while rest != []
      invariant BuildTable(c, rest, byDigest) == BuildTable(c, disclosures, map[])
      invariant work + |rest| == |disclosures|
      invariant Pool(byDigest, byDigest.Keys) + 3 * DisclosuresSize(c, rest) <= 3 * DisclosuresSize(c, disclosures)
      decreases |rest|
    {
      work := work + 1;
      var d := rest[0];
      rest := rest[1..];
      var arr := c.decode(d);
      if arr.None? { return Err(MalformedDisclosure), census, work; }
      if !arr.value.Arr? || |arr.value.items| !in {2, 3} { return Err(DisclosureArity), census, work; }
      if c.digest(d) in byDigest { return Err(DuplicateDisclosure), census, work; }
      PoolAdd(byDigest, c.digest(d), arr.value.items);
      assert byDigest[c.digest(d) := arr.value.items].Keys == byDigest.Keys + {c.digest(d)};
      byDigest := byDigest[c.digest(d) := arr.value.items];
    }
    var resolver := new Resolver(byDigest);
    r := resolver.Run(Obj(payload));
    work := work + resolver.ticks;
    if r.Ok? {
      if byDigest.Keys - resolver.used != {} { return Err(UnmatchedDisclosures), census, work; }
      census := Census(resolver.encountered, resolver.used);
    }
  }

  lemma TwoParts(arr: seq<Json>)
    requires |arr| == 2
    ensures Price(arr) >= 3 * Size(arr[1])
  {
    assert ItemsSize(arr) == Size(arr[0]) + ItemsSize(arr[1..]) && ItemsSize(arr[1..]) == Size(arr[1]) + ItemsSize(arr[1..][1..]);
  }

  lemma ThreeParts(arr: seq<Json>)
    requires |arr| == 3
    ensures Price(arr) >= 3 * Size(arr[2])
  {
    assert arr[1..][1..][0] == arr[2];
    assert ItemsSize(arr) == Size(arr[0]) + ItemsSize(arr[1..]);
    assert ItemsSize(arr[1..]) == Size(arr[1]) + ItemsSize(arr[1..][1..]);
  }
}
