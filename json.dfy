/**
 * Python dictionaries with string keys, in insertion order, and the JSON
 * values that the lambdas pass to one another.
 */
module Dicts {
  import opened Wrappers

  /** A dict: entries in insertion order. */
  type Dict<V> = seq<(string, V)>

  function Keys<V>(d: Dict<V>): (ks: seq<string>)
    ensures |ks| == |d|
    ensures forall i :: 0 <= i < |d| ==> ks[i] == d[i].0
  {
    seq(|d|, i requires 0 <= i < |d| => d[i].0)
  }

  /** Python's `k in d`. */
  predicate HasKey<V>(d: Dict<V>, k: string) {
    k in Keys(d)
  }

  /** What every Python dict satisfies: no key twice. */
  predicate UniqueKeys<V>(d: Dict<V>) {
    forall i, j :: 0 <= i < j < |d| ==> d[i].0 != d[j].0
  }

  /** Python's d.get(k): the value stored under k, if any. */
  function Lookup<V>(d: Dict<V>, k: string): (r: Option<V>)
    ensures r.None? <==> !HasKey(d, k)
    ensures r.Some? ==> exists i :: 0 <= i < |d| && d[i] == (k, r.value)
  {
    if d == [] then None
    else if d[0].0 == k then Some(d[0].1)
    else Lookup(d[1..], k)
  }

  /** Lookup finds the first entry with the key. */
  lemma {:induction false} LookupFirst<V>(d: Dict<V>, k: string, i: nat)
    requires i < |d| && d[i].0 == k
    requires forall j :: 0 <= j < i ==> d[j].0 != k
    ensures Lookup(d, k) == Some(d[i].1)
    decreases i
  {
    if i > 0 {
      LookupFirst(d[1..], k, i - 1);
    }
  }

  lemma {:induction false} LookupUnique<V>(d: Dict<V>, i: nat)
    requires UniqueKeys(d) && i < |d|
    ensures Lookup(d, d[i].0) == Some(d[i].1)
  {
    if i > 0 {
      LookupUnique(d[1..], i - 1);
    }
  }

  /** Python's d[k] = v: a present key keeps its position, a new one is appended. */
  function Put<V>(d: Dict<V>, k: string, v: V): (r: Dict<V>)
    ensures Keys(r) == if HasKey(d, k) then Keys(d) else Keys(d) + [k]
  {
    if d == [] then [(k, v)]
    else if d[0].0 == k then [(k, v)] + d[1..]
    else [d[0]] + Put(d[1..], k, v)
  }

  /** After d[k] = v, k reads as v and every other key reads as before. */
  lemma {:induction false} PutLookup<V>(d: Dict<V>, k: string, v: V, k': string)
    ensures Lookup(Put(d, k, v), k') == if k' == k then Some(v) else Lookup(d, k')
  {
    if d != [] && d[0].0 != k {
      PutLookup(d[1..], k, v, k');
      assert Put(d, k, v)[1..] == Put(d[1..], k, v);
    } else if d != [] {
      assert Put(d, k, v)[1..] == d[1..];
    }
  }

  /** Replacing the value of a present key touches that entry only. */
  lemma {:induction false} PutPresent<V>(d: Dict<V>, k: string, v: V, i: nat)
    requires UniqueKeys(d) && i < |d| && d[i].0 == k
    ensures Put(d, k, v) == d[i := (k, v)]
  {
    var tail := d[1..];
    if i > 0 {
      UniqueTail(d);
      assert d[0].0 != k;
      assert tail[i - 1] == d[i];
      PutPresent(tail, k, v, i - 1);
      assert Put(d, k, v) == [d[0]] + Put(tail, k, v);
      assert [d[0]] + tail[i - 1 := (k, v)] == d[i := (k, v)] by {
        var lhs := [d[0]] + tail[i - 1 := (k, v)];
        forall j | 0 <= j < |d|
          ensures lhs[j] == d[i := (k, v)][j]
        {
          if j > 0 {
            assert lhs[j] == tail[i - 1 := (k, v)][j - 1];
          }
        }
      }
    } else {
      assert [(k, v)] + tail == d[0 := (k, v)];
    }
  }

  /** Dropping the first entry keeps the keys unique. */
  lemma UniqueTail<V>(d: Dict<V>)
    requires d != [] && UniqueKeys(d)
    ensures UniqueKeys(d[1..])
  {
    var tail := d[1..];
    forall a, b | 0 <= a < b < |tail|
      ensures tail[a].0 != tail[b].0
    {
      assert tail[a] == d[a + 1] && tail[b] == d[b + 1];
    }
  }

  lemma {:induction false} PutAbsent<V>(d: Dict<V>, k: string, v: V)
    requires !HasKey(d, k)
    ensures Put(d, k, v) == d + [(k, v)]
  {
    if d != [] {
      var tail := d[1..];
      assert d[0].0 != k by {
        assert Keys(d)[0] == d[0].0;
      }
      assert !HasKey(tail, k) by {
        forall j | 0 <= j < |tail|
          ensures Keys(tail)[j] != k
        {
          assert Keys(d)[j + 1] == tail[j].0;
        }
      }
      PutAbsent(tail, k, v);
      calc {
        Put(d, k, v);
        [d[0]] + Put(tail, k, v);
        [d[0]] + (tail + [(k, v)]);
        { assert [d[0]] + tail == d; }
        d + [(k, v)];
      }
    }
  }

  lemma PutUnique<V>(d: Dict<V>, k: string, v: V)
    requires UniqueKeys(d)
    ensures UniqueKeys(Put(d, k, v))
  {
    var r := Put(d, k, v);
    var ks := Keys(r);
    assert forall i :: 0 <= i < |r| ==> r[i].0 == ks[i];
    assert forall i :: 0 <= i < |d| ==> d[i].0 == Keys(d)[i];
  }

  /** Python's d.update(e): Put every entry of e, in e's order. */
  function Update<V>(d: Dict<V>, e: Dict<V>): Dict<V>
    decreases |e|
  {
    if e == [] then d else Update(Put(d, e[0].0, e[0].1), e[1..])
  }

  predicate Disjoint<V>(d: Dict<V>, e: Dict<V>) {
    forall i :: 0 <= i < |e| ==> !HasKey(d, e[i].0)
  }

  lemma UpdateStep<V>(d: Dict<V>, e: Dict<V>)
    requires e != [] && !HasKey(d, e[0].0)
    ensures Update(d, e) == Update(d + [e[0]], e[1..])
  {
    PutAbsent(d, e[0].0, e[0].1);
  }

  lemma AppendHead<V>(d: Dict<V>, e: Dict<V>)
    requires e != []
    ensures (d + [e[0]]) + e[1..] == d + e
  {
  }

  lemma DisjointTail<V>(d: Dict<V>, e: Dict<V>)
    requires e != [] && UniqueKeys(e) && Disjoint(d, e)
    ensures UniqueKeys(e[1..]) && Disjoint(d + [e[0]], e[1..])
  {
    var d' := d + [e[0]];
    assert Keys(d') == Keys(d) + [e[0].0] by {
      PutAbsent(d, e[0].0, e[0].1);
    }
    forall i | 0 <= i < |e| - 1
      ensures !HasKey(d', e[1..][i].0)
    {
      assert e[1..][i].0 == e[i + 1].0;
      assert !HasKey(d, e[i + 1].0);
      assert e[i + 1].0 != e[0].0;
    }
  }

  /** Updating with entries whose keys are all new appends them: nothing is overwritten. */
  lemma {:induction false} UpdateDisjoint<V>(d: Dict<V>, e: Dict<V>)
    requires UniqueKeys(e) && Disjoint(d, e)
    ensures Update(d, e) == d + e
    decreases |e|
  {
    if e != [] {
      var d' := d + [e[0]];
      UpdateStep(d, e);
      DisjointTail(d, e);
      UpdateDisjoint(d', e[1..]);
      AppendHead(d, e);
    }
  }

  lemma KeysConcat<V>(a: Dict<V>, b: Dict<V>)
    ensures Keys(a + b) == Keys(a) + Keys(b)
  {
  }

  /** Entries of a dict that has distinct keys, split in two: each half is a dict and they share no key. */
  lemma UniqueSplit<V>(a: Dict<V>, b: Dict<V>)
    requires UniqueKeys(a + b)
    ensures UniqueKeys(a) && UniqueKeys(b) && Disjoint(a, b)
  {
    assert forall i, j :: 0 <= i < j < |a| ==> a[i].0 == (a + b)[i].0 && a[j].0 == (a + b)[j].0;
    assert forall i, j :: 0 <= i < j < |b| ==> b[i].0 == (a + b)[|a| + i].0 && b[j].0 == (a + b)[|a| + j].0;
    forall i | 0 <= i < |b|
      ensures !HasKey(a, b[i].0)
    {
      assert forall j :: 0 <= j < |a| ==> Keys(a)[j] == (a + b)[j].0 != (a + b)[|a| + i].0;
    }
  }

  /** The dicts of parts laid end to end. */
  function Concat<V>(parts: seq<Dict<V>>): (r: Dict<V>)
    ensures parts == [] ==> r == []
  {
    if parts == [] then [] else parts[0] + Concat(parts[1..])
  }

  /** d.update(p) for every part p, in order. */
  function UpdateAll<V>(d: Dict<V>, parts: seq<Dict<V>>): Dict<V>
    decreases |parts|
  {
    if parts == [] then d else UpdateAll(Update(d, parts[0]), parts[1..])
  }

  /** Updates whose keys are new and distinct overwrite nothing: they append the parts in order. */
  lemma {:induction false} UpdateAllDisjoint<V>(d: Dict<V>, parts: seq<Dict<V>>)
    requires UniqueKeys(d + Concat(parts))
    ensures UpdateAll(d, parts) == d + Concat(parts)
    decreases |parts|
  {
    if parts == [] {
      assert d + [] == d;
    } else {
      var rest := Concat(parts[1..]);
      assert d + Concat(parts) == (d + parts[0]) + rest;
      UniqueSplit(d + parts[0], rest);
      UniqueSplit(d, parts[0]);
      UpdateDisjoint(d, parts[0]);
      UpdateAllDisjoint(d + parts[0], parts[1..]);
    }
  }

  /** Parses every line in order, stopping at the first line that fails. */
  function ParseAll<T>(parse: string -> Result<T, Error>, lines: seq<string>): (r: Result<seq<T>, Error>)
    ensures r.Success? <==> forall k :: 0 <= k < |lines| ==> parse(lines[k]).Success?
    ensures r.Success? ==>
      && |r.value| == |lines|
      && forall k :: 0 <= k < |lines| ==> r.value[k] == parse(lines[k]).value
    ensures r.Failure? ==> exists k :: 0 <= k < |lines| && parse(lines[k]) == Failure(r.error)
    decreases |lines|
  {
    if lines == [] then Success([])
    else match parse(lines[0])
      case Failure(e) => Failure(e)
      case Success(x) =>
        match ParseAll(parse, lines[1..])
        case Failure(e) =>
          ParseAllShift(parse, lines);
          Failure(e)
        case Success(xs) =>
          ParseAllShift(parse, lines);
          Success([x] + xs)
  }

  /** Lines that each parse to the matching value parse to all of them. */
  lemma ParseAllPointwise<T>(parse: string -> Result<T, Error>, lines: seq<string>, xs: seq<T>)
    requires |xs| == |lines|
    requires forall k :: 0 <= k < |lines| ==> parse(lines[k]) == Success(xs[k])
    ensures ParseAll(parse, lines) == Success(xs)
  {
    var r := ParseAll(parse, lines);
    assert r.Success?;
    assert r.value == xs;
  }

  lemma ParseAllShift<T>(parse: string -> Result<T, Error>, lines: seq<string>)
    requires lines != []
    ensures forall k :: 0 < k < |lines| ==> lines[k] == lines[1..][k - 1]
  {
  }

  /** Appends what each line parses to, in order, stopping at the first line that fails. */
  function AppendParsed<T>(parse: string -> Result<T, Error>, acc: seq<T>, lines: seq<string>): Result<seq<T>, Error>
    decreases |lines|
  {
    if lines == [] then Success(acc)
    else match parse(lines[0])
      case Failure(e) => Failure(e)
      case Success(x) => AppendParsed(parse, acc + [x], lines[1..])
  }

  lemma {:induction false} AppendParsedAll<T>(parse: string -> Result<T, Error>, acc: seq<T>, lines: seq<string>)
    ensures AppendParsed(parse, acc, lines)
         == match ParseAll(parse, lines)
            case Success(xs) => Success(acc + xs)
            case Failure(e) => Failure(e)
    decreases |lines|
  {
    if lines == [] {
      assert acc + [] == acc;
    } else {
      match parse(lines[0])
      case Failure(e) =>
      case Success(x) =>
        AppendParsedAll(parse, acc + [x], lines[1..]);
        match ParseAll(parse, lines[1..])
        case Failure(e) =>
        case Success(xs) =>
          assert ParseAll(parse, lines) == Success([x] + xs);
          assert (acc + [x]) + xs == acc + ([x] + xs);
    }
  }

  /** One step of AppendParsed. */
  lemma AppendParsedStep<T>(parse: string -> Result<T, Error>, acc: seq<T>, lines: seq<string>)
    requires lines != []
    ensures parse(lines[0]).Failure? ==> AppendParsed(parse, acc, lines) == Failure(parse(lines[0]).error)
    ensures parse(lines[0]).Success? ==>
      AppendParsed(parse, acc, lines) == AppendParsed(parse, acc + [parse(lines[0]).value], lines[1..])
  {
  }

  /** Assigns d[key] = value for the pair each line parses to, in order, stopping at the first line that fails. */
  function PutParsed<V>(parse: string -> Result<(string, V), Error>, acc: Dict<V>, lines: seq<string>): Result<Dict<V>, Error>
    decreases |lines|
  {
    if lines == [] then Success(acc)
    else match parse(lines[0])
      case Failure(e) => Failure(e)
      case Success(kv) => PutParsed(parse, Put(acc, kv.0, kv.1), lines[1..])
  }

  /** Lines that all parse collect exactly their parsed values. */
  lemma AppendParsedOfParsed<T>(parse: string -> Result<T, Error>, lines: seq<string>, xs: seq<T>)
    requires ParseAll(parse, lines) == Success(xs)
    ensures AppendParsed(parse, [], lines) == Success(xs)
  {
    var empty: seq<T> := [];
    assert empty + xs == xs;
    AppendParsedAll(parse, empty, lines);
  }

  /** One step of PutParsed. */
  lemma PutParsedStep<V>(parse: string -> Result<(string, V), Error>, acc: Dict<V>, lines: seq<string>)
    requires lines != []
    ensures parse(lines[0]).Failure? ==> PutParsed(parse, acc, lines) == Failure(parse(lines[0]).error)
    ensures parse(lines[0]).Success? ==>
      var kv := parse(lines[0]).value;
      PutParsed(parse, acc, lines) == PutParsed(parse, Put(acc, kv.0, kv.1), lines[1..])
  {
  }

  /** Assigning parsed pairs one by one is dict.update with all of them, once every line parses. */
  lemma {:induction false} PutParsedUpdate<V>(parse: string -> Result<(string, V), Error>, acc: Dict<V>, lines: seq<string>)
    ensures PutParsed(parse, acc, lines)
         == match ParseAll(parse, lines)
            case Success(ps) => Success(Update(acc, ps))
            case Failure(e) => Failure(e)
    decreases |lines|
  {
    if lines != [] {
      match parse(lines[0])
      case Failure(e) =>
      case Success(kv) =>
        PutParsedUpdate(parse, Put(acc, kv.0, kv.1), lines[1..]);
        match ParseAll(parse, lines[1..])
        case Failure(e) =>
        case Success(ps) =>
          assert ([kv] + ps)[1..] == ps;
    }
  }

  /** Lines that parse to pairs with distinct keys decode to exactly those pairs. */
  lemma PutParsedDistinct<V>(parse: string -> Result<(string, V), Error>, lines: seq<string>, ps: Dict<V>)
    requires ParseAll(parse, lines) == Success(ps) && UniqueKeys(ps)
    ensures PutParsed(parse, [], lines) == Success(ps)
  {
    var empty: Dict<V> := [];
    assert Disjoint(empty, ps) by {
      assert Keys(empty) == [];
    }
    UpdateDisjoint(empty, ps);
    assert empty + ps == ps;
    PutParsedUpdate(parse, empty, lines);
  }

  lemma {:induction false} PutParsedUnique<V>(parse: string -> Result<(string, V), Error>, acc: Dict<V>, lines: seq<string>)
    requires UniqueKeys(acc)
    ensures PutParsed(parse, acc, lines).Success? ==> UniqueKeys(PutParsed(parse, acc, lines).value)
    decreases |lines|
  {
    if lines != [] && parse(lines[0]).Success? {
      var kv := parse(lines[0]).value;
      PutUnique(acc, kv.0, kv.1);
      PutParsedUnique(parse, Put(acc, kv.0, kv.1), lines[1..]);
    }
  }
}

module Json {
  import opened Wrappers
  import opened Dicts

  /** A JSON value as Python's json module represents it (floats left out). */
  datatype Json =
    | JNull
    | JBool(b: bool)
    | JInt(i: int)
    | JStr(s: string)
    | JArr(items: seq<Json>)
    | JObj(fields: Dict<Json>)

  /** A lambda's event: a JSON object. */
  type Event = Dict<Json>

  /** Python's `d[k]` on a dict: KeyError when absent. */
  function At(d: Dict<Json>, k: string): (r: Result<Json, Error>)
    ensures r.Failure? <==> !HasKey(d, k)
    ensures r.Failure? ==> r.error == KeyError(k)
    ensures r.Success? ==> Lookup(d, k) == Some(r.value)
  {
    match Lookup(d, k)
    case Some(v) => Success(v)
    case None => Failure(KeyError(k))
  }

  /** Python's `j[k]` on a JSON value: a TypeError unless it is an object. */
  function Member(j: Json, k: string): (r: Result<Json, Error>)
    ensures !j.JObj? ==> r == Failure(TypeError)
    ensures j.JObj? ==> r == At(j.fields, k)
  {
    if j.JObj? then At(j.fields, k) else Failure(TypeError)
  }

  /** A value the code uses as a str. */
  function AsString(j: Json): (r: Result<string, Error>)
    ensures j.JStr? <==> r.Success?
    ensures j.JStr? ==> r.value == j.s
    ensures !j.JStr? ==> r.error == TypeError
  {
    if j.JStr? then Success(j.s) else Failure(TypeError)
  }

  /** A value the code uses as a list of str. */
  function AsStrings(j: Json): (r: Result<seq<string>, Error>)
    ensures r.Success? <==> j.JArr? && forall k :: 0 <= k < |j.items| ==> j.items[k].JStr?
    ensures r.Success? ==> |r.value| == |j.items| && forall k :: 0 <= k < |j.items| ==> j.items[k] == JStr(r.value[k])
    ensures r.Failure? ==> r.error == TypeError
  {
    if j.JArr? && forall k :: 0 <= k < |j.items| ==> j.items[k].JStr? then
      Success(seq(|j.items|, k requires 0 <= k < |j.items| => j.items[k].s))
    else Failure(TypeError)
  }

  /** Python's `k in j` for a value the code treats as a dict. */
  predicate HasMember(j: Json, k: string) {
    j.JObj? && HasKey(j.fields, k)
  }

  /** k occurs in s starting at index i. */
  predicate OccursAt(k: string, s: string, i: nat) {
    i + |k| <= |s| && s[i..i + |k|] == k
  }

  /** Python's `k in s` for two str. */
  predicate IsSubstring(k: string, s: string) {
    exists i | 0 <= i <= |s| :: OccursAt(k, s, i)
  }

  /** Python's `k in j`: a key of a dict, an element of a list, a substring of a str; a TypeError otherwise. */
  function Contains(j: Json, k: string): (r: Result<bool, Error>)
    ensures j.JObj? ==> r == Success(HasKey(j.fields, k))
    ensures j.JArr? ==> r == Success(JStr(k) in j.items)
    ensures j.JStr? ==> r == Success(IsSubstring(k, j.s))
    ensures (j.JNull? || j.JBool? || j.JInt?) ==> r == Failure(TypeError)
  {
    match j
    case JObj(fields) => Success(HasKey(fields, k))
    case JArr(items) => Success(JStr(k) in items)
    case JStr(s) => Success(IsSubstring(k, s))
    case _ => Failure(TypeError)
  }

  /** What `for x in j` visits: a list's items, a dict's keys, a str's characters; a TypeError otherwise. */
  function Iterate(j: Json): (r: Result<seq<Json>, Error>)
    ensures j.JArr? ==> r == Success(j.items)
    ensures j.JObj? ==> r.Success? && |r.value| == |j.fields| && forall i :: 0 <= i < |j.fields| ==> r.value[i] == JStr(j.fields[i].0)
    ensures j.JStr? ==> r.Success? && |r.value| == |j.s| && forall i :: 0 <= i < |j.s| ==> r.value[i] == JStr([j.s[i]])
    ensures (j.JNull? || j.JBool? || j.JInt?) ==> r == Failure(TypeError)
  {
    match j
    case JArr(items) => Success(items)
    case JObj(fields) => Success(seq(|fields|, i requires 0 <= i < |fields| => JStr(fields[i].0)))
    case JStr(s) => Success(seq(|s|, i requires 0 <= i < |s| => JStr([s[i]])))
    case _ => Failure(TypeError)
  }

  /** The decimal digits of n. */
  function NatText(n: nat): string {
    if n < 10 then ['0' + n as char]
    else NatText(n / 10) + ['0' + (n % 10) as char]
  }

  /** Python's str(n) for an int. */
  function IntText(n: int): string {
    if n < 0 then "-" + NatText(-n) else NatText(n)
  }

  /** Python's repr(j): how j is written inside a list or a dict. */
  function Repr(j: Json): string
    decreases j, 1, 0
  {
    match j
    case JNull => "None"
    case JBool(b) => if b then "True" else "False"
    case JInt(n) => IntText(n)
    case JStr(s) => "'" + s + "'"
    case JArr(items) => "[" + ReprItems(j, 0) + "]"
    case JObj(fields) => "{" + ReprFields(j, 0) + "}"
  }

  /** The items of the list j from index k on, each as its repr, separated by ", ". */
  function ReprItems(j: Json, k: nat): string
    requires j.JArr? && k <= |j.items|
    decreases j, 0, |j.items| - k
  {
    if k == |j.items| then ""
    else (if k > 0 then ", " else "") + Repr(j.items[k]) + ReprItems(j, k + 1)
  }

  /** The entries of the dict j from index k on, each as 'key': repr, separated by ", ". */
  function ReprFields(j: Json, k: nat): string
    requires j.JObj? && k <= |j.fields|
    decreases j, 0, |j.fields| - k
  {
    if k == |j.fields| then ""
    else (if k > 0 then ", " else "") + "'" + j.fields[k].0 + "': " + Repr(j.fields[k].1) + ReprFields(j, k + 1)
  }

  /** Python's str(j), which an f-string also uses: a str is itself, anything else its repr. */
  function StrOf(j: Json): (r: string)
    ensures j.JStr? ==> r == j.s
    ensures !j.JStr? ==> r == Repr(j)
  {
    if j.JStr? then j.s else Repr(j)
  }
}

/** A lambda's environment variables. */
module Environ {
  import opened Wrappers

  type Env = map<string, string>

  /** os.environ[name]: a KeyError when the variable is not set. */
  function Getenv(env: Env, name: string): (r: Result<string, Error>)
    ensures r.Success? <==> name in env
    ensures r.Success? ==> r.value == env[name]
    ensures r.Failure? ==> r.error == KeyError(name)
  {
    if name in env then Success(env[name]) else Failure(KeyError(name))
  }
}
