/** The class records of the jbases file: progress_jbase_line (jdwp/initializer.c:187-312), which walks the
    comma-separated items of a line with a cursor, and the printed form it reads. */
module Jbase {
  import opened Bytes
  import opened Options
  import opened Text
  import R = RefTypes

  datatype Member = Member(name: string, mods: nat, signature: string)

  /** What a line describes. */
  datatype Record = Record(isClass: bool, name: string, mods: nat, superName: string, interfaces: seq<string>,
                           fields: seq<Member>, methods: seq<Member>)

  /** A field or method as it is stored; the id is its position. */
  datatype Stored = Stored(id: int, member: Member)

  const TYPETAG_CLASS := 1
  const TYPETAG_INTERFACE := 2
  const ROOT := "java.lang.Object"

  /** The superclass pointer of a new type: never set for an interface and for a subclass of the root class, null when
      the name is not known. */
  datatype SuperClass = Uninitialised | Null | Class(name: string)

  /** The type the line becomes. Superclass and interfaces are looked up by name among the known classes; the root
      class is never looked up. */
  datatype RefType = RefType(tag: int, name: string, mods: nat, superClass: SuperClass, interfaces: seq<string>,
                             fields: seq<Stored>, methods: seq<Stored>)

  // ----- reading from the front of the remaining items; None where the source runs off the items, finds no colon or
  // stores a member behind its array

  function Value(items: seq<string>): Option<(string, seq<string>)> {
    if items == [] then None
    else
      var av := Split(items[0], ':');
      if |av| < 2 then None else Some((av[1], items[1..]))
  }

  function Number(items: seq<string>): Option<(nat, seq<string>)> {
    var (v, rest) :- Value(items);
    Some((Accumulate(0, v), rest))
  }

  function Names(items: seq<string>, n: int): Option<(seq<string>, seq<string>)>
    decreases n
  {
    if n <= 0 then Some(([], items))
    else
      var (v, rest) :- Value(items);
      var (vs, end) :- Names(rest, n - 1);
      Some(([v] + vs, end))
  }

  function OneMember(items: seq<string>): Option<(Member, seq<string>)> {
    var (name, rest) :- Value(items);
    var (mods, rest') :- Number(rest);
    var (signature, end) :- Value(rest');
    Some((Member(name, mods, signature), end))
  }

  /** Members start, ..., n - 1, as long as the array takes them. */
  function Members(items: seq<string>, start: int, n: int): Option<(seq<Stored>, seq<string>)>
    decreases n - start
  {
    if n <= start then Some(([], items))
    else
      var (m, rest) :- OneMember(items);
      if start >= R.FULL then None
      else
        var (ms, end) :- Members(rest, start + 1, n);
        Some(([Stored(start, m)] + ms, end))
  }

  function Counted(items: seq<string>): Option<(seq<Stored>, seq<string>)> {
    var (n, rest) :- Number(items);
    Members(rest, 0, n)
  }

  /** The names that are known, in order. */
  function Found(names: seq<string>, known: set<string>): seq<string> {
    if names == [] then [] else (if names[0] in known then [names[0]] else []) + Found(names[1..], known)
  }

  /** The counted interfaces; the known ones are stored. */
  function Interfaces(items: seq<string>, n: int, known: set<string>): Option<(seq<string>, seq<string>)> {
    var (names, rest) :- Names(items, n);
    if |Found(names, known)| > R.FULL then None else Some((Found(names, known), rest))
  }

  function Lookup(name: string, known: set<string>): SuperClass {
    if name == ROOT then Uninitialised else if name in known then Class(name) else Null
  }

  /** The name of the superclass; interfaces have none. */
  function Super(isClass: bool, items: seq<string>, known: set<string>): Option<(SuperClass, seq<string>)> {
    if !isClass then Some((Uninitialised, items))
    else
      var (name, rest) :- Value(items);
      Some((Lookup(name, known), rest))
  }

  /** A whole line: the type, and the items behind it. */
  function Parse(items: seq<string>, known: set<string>): Option<(RefType, seq<string>)>
    requires items != []
  {
    var isClass := items[0] == "Class";
    var (name, afterName) :- Value(items[1..]);
    var (mods, afterMods) :- Number(afterName);
    var (super, afterSuper) :- Super(isClass, afterMods, known);
    var (n, afterCount) :- Number(afterSuper);
    var (interfaces, afterInterfaces) :- Interfaces(afterCount, n, known);
    var (fields, afterFields) :- Counted(afterInterfaces);
    var (methods, end) :- Counted(afterFields);
    var tag := if isClass then TYPETAG_CLASS else TYPETAG_INTERFACE;
    Some((RefType(tag, name, mods, super, interfaces, fields, methods), end))
  }

  // ----- the printed form -----

  function Pair(key: string, value: string): string { key + ":" + value }

  function NameItems(names: seq<string>): seq<string> {
    if names == [] then [] else [Pair("ImplementedInterfaceName", names[0])] + NameItems(names[1..])
  }

  /** The three keys of a field or method. */
  datatype Keys = Keys(name: string, mods: string, signature: string)

  const FIELD := Keys("FieldName", "FieldMods", "FieldType")
  const METHOD := Keys("MethodName", "MethodMods", "MethodSignature")

  function MemberItems(keys: Keys, ms: seq<Member>): seq<string> {
    if ms == [] then []
    else
      [Pair(keys.name, ms[0].name), Pair(keys.mods, Decimal(ms[0].mods)), Pair(keys.signature, ms[0].signature)]
      + MemberItems(keys, ms[1..])
  }

  function HeadItems(r: Record): seq<string> {
    if r.isClass then
      ["Class", Pair("ClassName", r.name), Pair("ClassMods", Decimal(r.mods)),
       Pair("ClassSuperClassName", r.superName)]
    else
      ["Interface", Pair("InterfaceName", r.name), Pair("InterfaceMods", Decimal(r.mods))]
  }

  function CountItem(key: string, n: nat): seq<string> { [Pair(key, Decimal(n))] }

  function MethodPart(r: Record): seq<string> {
    CountItem("Methods-Count", |r.methods|) + (MemberItems(METHOD, r.methods) + [""])
  }

  function FieldPart(r: Record): seq<string> {
    CountItem("FieldsCount", |r.fields|) + (MemberItems(FIELD, r.fields) + MethodPart(r))
  }

  /** The items of a line; the last one is empty, for the comma at the end. */
  function Items(r: Record): (items: seq<string>)
    ensures items != []
  {
    HeadItems(r) + (CountItem("InterfacesCount", |r.interfaces|) + (NameItems(r.interfaces) + FieldPart(r)))
  }

  function Print(r: Record): string { Join(Items(r), ',') }

  /** No separator inside. */
  predicate Plain(s: string) { ',' !in s && ':' !in s }

  predicate PlainMember(m: Member) { Plain(m.name) && Plain(m.signature) && m.mods < TWO32 }

  predicate WellFormed(r: Record) {
    && Plain(r.name) && Plain(r.superName) && r.mods < TWO32
    && |r.interfaces| < TWO32 && |r.fields| < TWO32 && |r.methods| < TWO32
    && (forall i | 0 <= i < |r.interfaces| :: Plain(r.interfaces[i]))
    && (forall i | 0 <= i < |r.fields| :: PlainMember(r.fields[i]))
    && forall i | 0 <= i < |r.methods| :: PlainMember(r.methods[i])
  }

  function Numbered(ms: seq<Member>, start: nat): seq<Stored>
    decreases |ms|
  {
    if ms == [] then [] else [Stored(start, ms[0])] + Numbered(ms[1..], start + 1)
  }

  /** What the line of a record must become. */
  function Meaning(r: Record, known: set<string>): RefType {
    RefType(if r.isClass then TYPETAG_CLASS else TYPETAG_INTERFACE, r.name, r.mods,
            if r.isClass then Lookup(r.superName, known) else Uninitialised,
            Found(r.interfaces, known), Numbered(r.fields, 0), Numbered(r.methods, 0))
  }

  // ----- print, then parse -----

  lemma ValueOf(key: string, v: string, rest: seq<string>)
    requires ':' !in key && Plain(v)
    ensures Value([Pair(key, v)] + rest) == Some((v, rest))
  {
    hide Split;
    assert [key, v][1..] == [v];
    assert Join([key, v], ':') == key + [':'] + Join([v], ':') == Pair(key, v);
    SplitJoin([key, v], ':');
    assert ([Pair(key, v)] + rest)[1..] == rest;
  }

  lemma DecimalPlain(n: nat)
    ensures Plain(Decimal(n))
  {
    var s := Decimal(n);
    assert forall c | c in s :: '0' <= c <= '9';
  }

  lemma NumberOf(key: string, n: nat, rest: seq<string>)
    requires ':' !in key && n < TWO32
    ensures Number([Pair(key, Decimal(n))] + rest) == Some((n, rest))
  {
    hide Value, Decimal, Accumulate;
    DecimalPlain(n);
    ValueOf(key, Decimal(n), rest);
    DecimalExact(n);
  }

  lemma {:induction false} NamesOf(names: seq<string>, rest: seq<string>)
    requires forall i | 0 <= i < |names| :: Plain(names[i])
    ensures Names(NameItems(names) + rest, |names|) == Some((names, rest))
    decreases |names|
  {
    hide Value;
    if names == [] {
      assert NameItems(names) + rest == rest;
    } else {
      var more := NameItems(names[1..]) + rest;
      assert NameItems(names) + rest == [Pair("ImplementedInterfaceName", names[0])] + more;
      ValueOf("ImplementedInterfaceName", names[0], more);
      NamesOf(names[1..], rest);
      assert [names[0]] + names[1..] == names;
    }
  }

  predicate PlainKeys(keys: Keys) { Plain(keys.name) && Plain(keys.mods) && Plain(keys.signature) }

  lemma MemberOf(keys: Keys, m: Member, rest: seq<string>)
    requires PlainKeys(keys) && PlainMember(m)
    ensures OneMember([Pair(keys.name, m.name), Pair(keys.mods, Decimal(m.mods)), Pair(keys.signature, m.signature)]
                      + rest)
            == Some((m, rest))
  {
    hide Value, Number, Decimal;
    var a, b, c := Pair(keys.name, m.name), Pair(keys.mods, Decimal(m.mods)), Pair(keys.signature, m.signature);
    assert [a, b, c] + rest == [a] + ([b] + ([c] + rest));
    ValueOf(keys.name, m.name, [b] + ([c] + rest));
    NumberOf(keys.mods, m.mods, [c] + rest);
    ValueOf(keys.signature, m.signature, rest);
  }

  lemma {:induction false} MembersOf(keys: Keys, ms: seq<Member>, start: nat, rest: seq<string>)
    requires PlainKeys(keys) && (forall i | 0 <= i < |ms| :: PlainMember(ms[i])) && start <= R.FULL
    ensures Members(MemberItems(keys, ms) + rest, start, start + |ms|)
            == if start + |ms| <= R.FULL then Some((Numbered(ms, start), rest)) else None
    decreases |ms|
  {
    hide OneMember, Decimal, Pair;
    if ms == [] {
      assert MemberItems(keys, ms) + rest == rest;
    } else {
      var m, more := ms[0], MemberItems(keys, ms[1..]) + rest;
      assert MemberItems(keys, ms) + rest
          == [Pair(keys.name, m.name), Pair(keys.mods, Decimal(m.mods)), Pair(keys.signature, m.signature)] + more;
      MemberOf(keys, m, more);
      if start < R.FULL {
        MembersOf(keys, ms[1..], start + 1, rest);
      }
    }
  }

  lemma CountedOf(count: string, keys: Keys, ms: seq<Member>, rest: seq<string>)
    requires ':' !in count && PlainKeys(keys) && |ms| < TWO32 && forall i | 0 <= i < |ms| :: PlainMember(ms[i])
    ensures Counted(CountItem(count, |ms|) + (MemberItems(keys, ms) + rest))
            == if |ms| <= R.FULL then Some((Numbered(ms, 0), rest)) else None
  {
    hide Number, Members, MemberItems, Numbered, Decimal;
    NumberOf(count, |ms|, MemberItems(keys, ms) + rest);
    MembersOf(keys, ms, 0, rest);
  }

  lemma FieldKeys()
    ensures PlainKeys(FIELD)
  {
  }

  lemma MethodKeys()
    ensures PlainKeys(METHOD)
  {
  }

  lemma FieldsAndMethods(r: Record)
    requires WellFormed(r)
    ensures Counted(FieldPart(r)) == if |r.fields| <= R.FULL then Some((Numbered(r.fields, 0), MethodPart(r))) else None
    ensures Counted(MethodPart(r)) == if |r.methods| <= R.FULL then Some((Numbered(r.methods, 0), [""])) else None
  {
    hide Counted, Numbered, MemberItems, CountItem, PlainKeys, PlainMember;
    FieldKeys();
    MethodKeys();
    CountedOf("FieldsCount", FIELD, r.fields, MethodPart(r));
    CountedOf("Methods-Count", METHOD, r.methods, [""]);
  }

  lemma InterfacesOf(r: Record)
    requires WellFormed(r)
    ensures var items := CountItem("InterfacesCount", |r.interfaces|) + (NameItems(r.interfaces) + FieldPart(r));
            && Number(items) == Some((|r.interfaces|, NameItems(r.interfaces) + FieldPart(r)))
            && Names(NameItems(r.interfaces) + FieldPart(r), |r.interfaces|) == Some((r.interfaces, FieldPart(r)))
  {
    hide Number, Names, NameItems, FieldPart;
    NumberOf("InterfacesCount", |r.interfaces|, NameItems(r.interfaces) + FieldPart(r));
    NamesOf(r.interfaces, FieldPart(r));
  }

  lemma HeadOf(r: Record, known: set<string>, rest: seq<string>)
    requires WellFormed(r)
    ensures var items := HeadItems(r) + rest;
            && (items[0] == "Class") == r.isClass
            && var v := Value(items[1..]);
            && v.Some? && v.value.0 == r.name
            && var n := Number(v.value.1);
            && n.Some? && n.value.0 == r.mods
            && Super(r.isClass, n.value.1, known)
               == Some((if r.isClass then Lookup(r.superName, known) else Uninitialised, rest))
  {
    hide Value, Number, Decimal, Pair;
    var items := HeadItems(r) + rest;
    if r.isClass {
      var super := [Pair("ClassSuperClassName", r.superName)] + rest;
      var mods := [Pair("ClassMods", Decimal(r.mods))] + super;
      assert items[1..] == [Pair("ClassName", r.name)] + mods;
      ValueOf("ClassName", r.name, mods);
      NumberOf("ClassMods", r.mods, super);
      ValueOf("ClassSuperClassName", r.superName, rest);
    } else {
      var mods := [Pair("InterfaceMods", Decimal(r.mods))] + rest;
      assert items[1..] == [Pair("InterfaceName", r.name)] + mods;
      ValueOf("InterfaceName", r.name, mods);
      NumberOf("InterfaceMods", r.mods, rest);
    }
  }

  /** All members and all known interfaces fit into their arrays. */
  predicate Storable(r: Record, known: set<string>) {
    |r.fields| <= R.FULL && |r.methods| <= R.FULL && |Found(r.interfaces, known)| <= R.FULL
  }

  lemma ParseItems(r: Record, known: set<string>)
    requires WellFormed(r)
    ensures Parse(Items(r), known) == if Storable(r, known) then Some((Meaning(r, known), [""])) else None
  {
    hide Value, Number, Names, Counted, Super, HeadItems, CountItem, NameItems, FieldPart, MethodPart, Found, Numbered,
      Lookup, WellFormed;
    HeadOf(r, known, CountItem("InterfacesCount", |r.interfaces|) + (NameItems(r.interfaces) + FieldPart(r)));
    InterfacesOf(r);
    FieldsAndMethods(r);
  }

  // ----- no item contains a comma

  predicate Whole(items: seq<string>) { forall k | 0 <= k < |items| :: ',' !in items[k] }

  lemma {:induction false} NamesWhole(names: seq<string>)
    requires forall i | 0 <= i < |names| :: Plain(names[i])
    ensures Whole(NameItems(names))
    decreases |names|
  {
    if names != [] {
      NamesWhole(names[1..]);
    }
  }

  lemma {:induction false} MembersWhole(keys: Keys, ms: seq<Member>)
    requires PlainKeys(keys) && forall i | 0 <= i < |ms| :: PlainMember(ms[i])
    ensures Whole(MemberItems(keys, ms))
    decreases |ms|
  {
    hide Decimal;
    if ms != [] {
      DecimalPlain(ms[0].mods);
      MembersWhole(keys, ms[1..]);
    }
  }

  lemma JoinWhole(a: seq<string>, b: seq<string>)
    requires Whole(a) && Whole(b)
    ensures Whole(a + b)
  {
  }

  lemma CountWhole(key: string, n: nat)
    requires ',' !in key
    ensures Whole(CountItem(key, n))
  {
    hide Decimal;
    DecimalPlain(n);
  }

  lemma HeadWhole(r: Record)
    requires WellFormed(r)
    ensures Whole(HeadItems(r))
  {
    hide Decimal;
    DecimalPlain(r.mods);
    assert ',' !in Pair("ClassName", r.name) && ',' !in Pair("ClassSuperClassName", r.superName);
    assert ',' !in Pair("ClassMods", Decimal(r.mods)) && ',' !in Pair("InterfaceMods", Decimal(r.mods));
    assert ',' !in Pair("InterfaceName", r.name) && ',' !in "Class" && ',' !in "Interface";
  }

  lemma PartsWhole(r: Record)
    requires WellFormed(r)
    ensures Whole(FieldPart(r))
  {
    hide CountItem, MemberItems, PlainKeys, PlainMember, Whole;
    FieldKeys();
    MethodKeys();
    CountWhole("Methods-Count", |r.methods|);
    CountWhole("FieldsCount", |r.fields|);
    MembersWhole(FIELD, r.fields);
    MembersWhole(METHOD, r.methods);
    EndWhole();
    JoinWhole(MemberItems(METHOD, r.methods), [""]);
    JoinWhole(CountItem("Methods-Count", |r.methods|), MemberItems(METHOD, r.methods) + [""]);
    JoinWhole(MemberItems(FIELD, r.fields), MethodPart(r));
    JoinWhole(CountItem("FieldsCount", |r.fields|), MemberItems(FIELD, r.fields) + MethodPart(r));
  }

  lemma EndWhole()
    ensures Whole([""])
  {
  }

  lemma ItemsWhole(r: Record)
    requires WellFormed(r)
    ensures Whole(Items(r))
  {
    hide CountItem, NameItems, FieldPart, HeadItems, Whole;
    HeadWhole(r);
    PartsWhole(r);
    NamesWhole(r.interfaces);
    CountWhole("InterfacesCount", |r.interfaces|);
    var n, c := NameItems(r.interfaces), CountItem("InterfacesCount", |r.interfaces|);
    JoinWhole(n, FieldPart(r));
    JoinWhole(c, n + FieldPart(r));
    JoinWhole(HeadItems(r), c + (n + FieldPart(r)));
  }

  /** Printing a record and parsing the line returns its kind, name, modifiers, fields and methods, and exactly those
      interfaces and that superclass that are known, with the cursor at the empty item behind the last comma, if and
      only if no more than 65534 fields, methods and known interfaces have to be stored. */
  lemma ParsePrint(r: Record, known: set<string>)
    requires WellFormed(r)
    ensures Parse(Split(Print(r), ','), known) == if Storable(r, known) then Some((Meaning(r, known), [""])) else None
  {
    hide Parse, Items, Meaning, WellFormed, Storable;
    ItemsWhole(r);
    SplitJoin(Items(r), ',');
    ParseItems(r, known);
  }

  lemma {:induction false} NumberedAt(ms: seq<Member>, start: nat)
    ensures |Numbered(ms, start)| == |ms|
    ensures forall i | 0 <= i < |ms| :: Numbered(ms, start)[i] == Stored(start + i, ms[i])
    decreases |ms|
  {
    if ms != [] {
      NumberedAt(ms[1..], start + 1);
    }
  }

  lemma {:induction false} FoundExactly(names: seq<string>, known: set<string>)
    ensures forall n :: n in Found(names, known) <==> n in names && n in known
    ensures (forall n | n in names :: n in known) ==> Found(names, known) == names
    decreases |names|
  {
    if names != [] {
      FoundExactly(names[1..], known);
      assert names == [names[0]] + names[1..];
    }
  }

  /** What becomes of a printed record, part by part: classes are tagged 1 and interfaces 2; the superclass is the
      printed one if it is known and not java.lang.Object, null if it is neither, and otherwise never set; members keep
      their order and are numbered by it; the interfaces are the known ones. */
  lemma PrintedType(r: Record, known: set<string>)
    requires WellFormed(r) && Storable(r, known)
    ensures var o := Parse(Split(Print(r), ','), known);
            o.Some? && o.value.1 == [""] &&
            var t := o.value.0;
            && t.tag == (if r.isClass then 1 else 2) && t.name == r.name && t.mods == r.mods
            && (forall n: string :: t.superClass == Class(n) <==>
                  r.isClass && n == r.superName && n in known && n != "java.lang.Object")
            && (t.superClass == Null <==>
                  r.isClass && r.superName !in known && r.superName != "java.lang.Object")
            && (t.superClass == Uninitialised <==> !r.isClass || r.superName == "java.lang.Object")
            && |t.fields| == |r.fields| && (forall i | 0 <= i < |r.fields| :: t.fields[i] == Stored(i, r.fields[i]))
            && |t.methods| == |r.methods|
            && (forall i | 0 <= i < |r.methods| :: t.methods[i] == Stored(i, r.methods[i]))
            && (forall n :: n in t.interfaces <==> n in r.interfaces && n in known)
            && ((forall n | n in r.interfaces :: n in known) ==> t.interfaces == r.interfaces)
  {
    hide Parse, Print, Split, WellFormed, Storable, Numbered, Found;
    ParsePrint(r, known);
    NumberedAt(r.fields, 0);
    NumberedAt(r.methods, 0);
    FoundExactly(r.interfaces, known);
  }

  // ----- the parser as it runs, with its cursor -----

  method ReadValue(items: seq<string>, at: nat) returns (r: Option<string>)
    requires at <= |items|
    ensures match Value(items[at..])
            case Some((v, rest)) => r == Some(v) && at < |items| && rest == items[at + 1..]
            case None => r == None
  {
    if at == |items| {
      return None;
    }
    assert items[at..][1..] == items[at + 1..];
    var av := SplitLine(items[at], ':');
    r := if |av| < 2 then None else Some(av[1]);
  }

  method ReadNumber(items: seq<string>, at: nat) returns (r: Option<nat>)
    requires at <= |items|
    ensures match Number(items[at..])
            case Some((n, rest)) => r == Some(n) && at < |items| && rest == items[at + 1..]
            case None => r == None
  {
    hide Value;
    var v :- ReadValue(items, at);
    var n := CastToInt(v);
    r := Some(n);
  }

  method StoreKnown(interfaces: R.Members<string>, name: string, known: set<string>) returns (stored: bool)
    requires interfaces.Valid()
    modifies interfaces, interfaces.items
    ensures interfaces.Valid() && (interfaces.items == old(interfaces.items) || fresh(interfaces.items))
    ensures var found := old(interfaces.Contents()) + if name in known then [name] else [];
            if stored then interfaces.Contents() == found else |found| > R.FULL
  {
    stored := true;
    if name in known {
      stored := interfaces.Add(name);
    }
  }

  /** Reads the implemented interfaces and stores the known ones (add_interface); also the new cursor. */
  method ReadInterfaces(items: seq<string>, at: nat, num: nat, known: set<string>)
    returns (r: Option<(seq<string>, nat)>)
    requires at <= |items|
    ensures r.Some? <==> Interfaces(items[at..], num, known).Some?
    ensures r.Some? ==>
              && r.value.0 == Interfaces(items[at..], num, known).value.0
              && r.value.1 <= |items| && items[r.value.1..] == Interfaces(items[at..], num, known).value.1
  {
    hide Value, Found, Names, Before;
    FoundNone(known);
    var start: nat, offset: nat := 0, at;
    var interfaces := new R.Members<string>();
    ghost var read: seq<string> := [];
    BeforeNext([], "", Names(items[at..], num));
    while start < num
      invariant start <= num && offset <= |items|
      invariant fresh(interfaces) && fresh(interfaces.items) && interfaces.Valid()
      invariant interfaces.Contents() == Found(read, known) && |Found(read, known)| <= R.FULL
      invariant Names(items[at..], num) == Before(read, Names(items[offset..], num - start))
    {
      NamesNext(items[offset..], num - start);
      BeforeNone<string>(read);
      var name :- ReadValue(items, offset);
      BeforeNext(read, name, Names(items[offset + 1..], num - start - 1));
      FoundNext(read, name, known);
      var stored := StoreKnown(interfaces, name, known);
      read := read + [name];
      if !stored {
        TooMany(items[at..], num, known, read, Names(items[offset + 1..], num - start - 1));
        return None;
      }
      start, offset := start + 1, offset + 1;
    }
    NamesEnd(items[offset..], read);
    r := Some((interfaces.items[..interfaces.count], offset));
  }

  lemma NamesNext(items: seq<string>, n: int)
    requires n > 0
    ensures var v := Value(items);
            Names(items, n) == if v.None? then None else Before([v.value.0], Names(v.value.1, n - 1))
  {
    hide Value;
  }

  lemma NamesEnd(items: seq<string>, read: seq<string>)
    ensures Before(read, Names(items, 0)) == Some((read, items))
  {
    assert read + [] == read;
  }

  lemma FoundNone(known: set<string>)
    ensures Found([], known) == []
  {
  }

  /** Names read later only add to the known ones. */
  lemma TooMany(items: seq<string>, num: int, known: set<string>, read: seq<string>,
                later: Option<(seq<string>, seq<string>)>)
    requires Names(items, num) == Before(read, later) && |Found(read, known)| > R.FULL
    ensures Interfaces(items, num, known) == None
  {
    if later.Some? { FoundMore(read, later.value.0, known); }
  }

  lemma {:induction false} FoundMore(names: seq<string>, more: seq<string>, known: set<string>)
    ensures |Found(names + more, known)| >= |Found(names, known)|
    decreases |more|
  {
    if more == [] {
      assert names + more == names;
    } else {
      assert names + more == (names + [more[0]]) + more[1..];
      FoundNext(names, more[0], known);
      FoundMore(names + [more[0]], more[1..], known);
    }
  }

  function Before<T>(front: seq<T>, r: Option<(seq<T>, seq<string>)>): Option<(seq<T>, seq<string>)> {
    match r
    case Some((vs, rest)) => Some((front + vs, rest))
    case None => None
  }

  lemma BeforeNone<T>(front: seq<T>)
    ensures Before(front, None) == None
  {
  }

  lemma BeforeNext<T>(front: seq<T>, v: T, r: Option<(seq<T>, seq<string>)>)
    ensures Before([], r) == r
    ensures Before(front, Before([v], r)) == Before(front + [v], r)
  {
    if r.Some? {
      var vs := r.value.0;
      assert [] + vs == vs && front + ([v] + vs) == (front + [v]) + vs;
    }
  }

  lemma {:induction false} FoundNext(names: seq<string>, name: string, known: set<string>)
    ensures Found(names + [name], known) == Found(names, known) + if name in known then [name] else []
    decreases |names|
  {
    if names == [] {
      assert [] + [name] == [name];
    } else {
      assert (names + [name])[1..] == names[1..] + [name];
      FoundNext(names[1..], name, known);
    }
  }

  method ReadMember(items: seq<string>, at: nat) returns (r: Option<Member>)
    requires at <= |items|
    ensures match OneMember(items[at..])
            case Some((m, rest)) => r == Some(m) && at + 3 <= |items| && rest == items[at + 3..]
            case None => r == None
  {
    hide Value, Number;
    var name :- ReadValue(items, at);
    var mods :- ReadNumber(items, at + 1);
    var signature :- ReadValue(items, at + 2);
    r := Some(Member(name, mods, signature));
  }

  /** The count and the members behind it, numbered from 0 and stored (add_field, add_method); also the new cursor. */
  method ReadMembers(items: seq<string>, at: nat) returns (r: Option<(seq<Stored>, nat)>)
    requires at <= |items|
    ensures match Counted(items[at..])
            case Some((ms, rest)) => r.Some? && r.value.0 == ms && r.value.1 <= |items| && rest == items[r.value.1..]
            case None => r == None
  {
    hide Number, OneMember;
    var num :- ReadNumber(items, at);
    var start: nat, offset: nat := 0, at + 1;
    var members := new R.Members<Stored>();
    BeforeNext([], Stored(0, Member("", 0, "")), Members(items[offset..], 0, num));
    while start < num
      invariant start <= num && offset <= |items|
      invariant fresh(members) && fresh(members.items) && members.Valid() && members.count == start
      invariant Counted(items[at..]) == Before(members.Contents(), Members(items[offset..], start, num))
    {
      var m :- ReadMember(items, offset);
      ghost var before := members.Contents();
      var stored := members.Add(Stored(start, m));
      if !stored {
        return None;
      }
      BeforeNext(before, Stored(start, m), Members(items[offset + 3..], start + 1, num));
      start, offset := start + 1, offset + 3;
    }
    assert members.Contents() + [] == members.Contents();
    r := Some((members.items[..members.count], offset));
  }

  /** The superclass of a class line; also the new cursor. */
  method ReadSuper(isClass: bool, items: seq<string>, at: nat, known: set<string>)
    returns (r: Option<(SuperClass, nat)>)
    requires at <= |items|
    ensures match Super(isClass, items[at..], known)
            case Some((s, rest)) => r.Some? && r.value.0 == s && r.value.1 <= |items| && rest == items[r.value.1..]
            case None => r == None
  {
    hide Value;
    if !isClass {
      return Some((Uninitialised, at));
    }
    var name :- ReadValue(items, at);
    r := Some((Lookup(name, known), at + 1));
  }

  /** progress_jbase_line: the type of a line and where the cursor stops; None where the source reads an item or a
      value that is not there, or stores a member behind its array. */
  method ProgressLine(entry: string, known: set<string>) returns (r: Option<(RefType, nat)>)
    ensures match Parse(Split(entry, ','), known)
            case Some((t, rest)) =>
              r.Some? && r.value.0 == t && r.value.1 <= |Split(entry, ',')| && rest == Split(entry, ',')[r.value.1..]
            case None => r == None
  {
    hide Value, Number, Interfaces, Counted, Super, Split;
    var items := SplitLine(entry, ',');
    var isClass := items[0] == "Class";
    var name :- ReadValue(items, 1);
    var mods :- ReadNumber(items, 2);
    var super :- ReadSuper(isClass, items, 3, known);
    var num :- ReadNumber(items, super.1);
    var interfaces :- ReadInterfaces(items, super.1 + 1, num, known);
    var fields :- ReadMembers(items, interfaces.1);
    var methods :- ReadMembers(items, fields.1);
    var tag := if isClass then TYPETAG_CLASS else TYPETAG_INTERFACE;
    r := Some((RefType(tag, name, mods, super.0, interfaces.0, fields.0, methods.0), methods.1));
  }
}
