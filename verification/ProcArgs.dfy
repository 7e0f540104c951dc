/**
 The parser for the buffer of the Darwin sysctl kern.procargs2 (cc-deck/internal/procinfo/procargs.go:29-92), and the
 layout that it inverts. Integers in the buffer are little-endian, as on every Darwin machine.
 */
module ProcArgs {
  import opened Wrappers

  newtype byte = x: int | 0 <= x < 0x100

  type Bytes = seq<byte>

  const EQUALS: byte := 61

  datatype Outcome = Complete | Truncated | TruncatedEnv

  datatype Parsed = Parsed(exe: Bytes, args: seq<Bytes>, env: map<Bytes, Bytes>, outcome: Outcome)

  /** The position of the first b, or the length if there is none. */
  function IndexOf(s: Bytes, b: byte): (i: nat)
    ensures i <= |s| && (i < |s| ==> s[i] == b) && forall k :: 0 <= k < i ==> s[k] != b
  {
    IndexFrom(s, b, 0)
  }

  function IndexFrom(s: Bytes, b: byte, from: nat): (i: nat)
    requires from <= |s|
    ensures from <= i <= |s| && (i < |s| ==> s[i] == b) && forall k :: from <= k < i ==> s[k] != b
    decreases |s| - from
  {
    if from == |s| || s[from] == b then from else IndexFrom(s, b, from + 1)
  }

  function Int32(b: Bytes): int
    requires |b| == 4
  {
    var u := b[0] as int + 0x100 * b[1] as int + 0x1_0000 * b[2] as int + 0x100_0000 * b[3] as int;
    if u < 0x8000_0000 then u else u - 0x1_0000_0000
  }

  function SkipNuls(s: Bytes): Bytes {
    if s != [] && s[0] == 0 then SkipNuls(s[1..]) else s
  }

  datatype Reading = Reading(argv: seq<Bytes>, rest: Bytes, complete: bool)

  /** The next argc strings after argv. A string without its end is the last one and is returned as far as it goes. */
  function ReadArgs(argc: int, rest: Bytes, argv: seq<Bytes>): Reading
    decreases |rest|
  {
    if argc <= 0 then Reading(argv, rest, true)
    else if rest == [] then Reading(argv, rest, false)
    else
      var j := IndexOf(rest, 0);
      if j == |rest| then Reading(argv + [rest], [], false)
      else ReadArgs(argc - 1, rest[j + 1..], argv + [rest[..j]])
  }

  /** The string as a variable: what is before its first = is the key. Without a key it is skipped. */
  function Put(env: map<Bytes, Bytes>, kv: Bytes): map<Bytes, Bytes> {
    var e := IndexOf(kv, EQUALS);
    if 0 < e < |kv| then env[kv[..e] := kv[e + 1..]] else env
  }

  /** The strings up to an empty one or the end. */
  function ReadEnv(rest: Bytes, env: map<Bytes, Bytes>): (map<Bytes, Bytes>, Outcome)
    decreases |rest|
  {
    if rest == [] then (env, Complete)
    else
      var j := IndexOf(rest, 0);
      if j == |rest| then (env, TruncatedEnv)
      else if j == 0 then (env, Complete)
      else ReadEnv(rest[j + 1..], Put(env, rest[..j]))
  }

  function SplitArgv(argv: seq<Bytes>): (Bytes, seq<Bytes>) {
    if argv == [] then ([], []) else (argv[0], argv[1..])
  }

  /** The result from the strings read and the bytes after them. */
  function Finish(r: Reading): Parsed {
    var (exe, args) := SplitArgv(r.argv);
    if !r.complete then Parsed(exe, args, map[], Truncated)
    else
      var (env, outcome) := ReadEnv(r.rest, map[]);
      Parsed(exe, args, env, outcome)
  }

  function Parse(buf: Bytes): Parsed {
    if |buf| < 4 then Parsed([], [], map[], Truncated)
    else
      var rest := buf[4..];
      var i := IndexOf(rest, 0);
      if i == |rest| then Parsed([], [], map[], Truncated)
      else Finish(ReadArgs(Int32(buf[..4]), SkipNuls(rest[i..]), []))
  }

  method ParseProcArgs2(buf: Bytes) returns (r: Parsed)
    ensures r == Parse(buf)
  {
    var env: map<Bytes, Bytes> := map[];
    if |buf| < 4 {
      return Parsed([], [], env, Truncated);
    }
    var argc := Int32(buf[..4]);
    var rest := buf[4..];
    var i := IndexOf(rest, 0);
    if i == |rest| {
      return Parsed([], [], env, Truncated);
    }
    rest := rest[i..];
    ghost var padded := rest;
    while |rest| > 0 && rest[0] == 0
      invariant SkipNuls(padded) == SkipNuls(rest)
    {
      rest := rest[1..];
    }
    ghost var strings := rest;
    var argv: seq<Bytes> := [];
    var n := 0;
    while n < argc
      invariant argc >= 0 ==> n <= argc
      invariant argc < 0 ==> n == 0
      invariant ReadArgs(argc, strings, []) == ReadArgs(argc - n, rest, argv)
      decreases argc - n
    {
      if |rest| == 0 {
        var (exe, args) := SplitArgv(argv);
        return Parsed(exe, args, env, Truncated);
      }
      var j := IndexOf(rest, 0);
      if j == |rest| {
        argv := argv + [rest];
        var (exe, args) := SplitArgv(argv);
        return Parsed(exe, args, env, Truncated);
      }
      argv := argv + [rest[..j]];
      rest := rest[j + 1..];
      n := n + 1;
    }
    var (exe, args) := SplitArgv(argv);
    ghost var block := rest;
    while |rest| > 0
      invariant ReadEnv(block, map[]) == ReadEnv(rest, env)
      decreases |rest|
    {
      var j := IndexOf(rest, 0);
      if j == |rest| {
        return Parsed(exe, args, env, TruncatedEnv);
      }
      var kv := rest[..j];
      rest := rest[j + 1..];
      if kv == [] {
        break;
      }
      env := Put(env, kv);
    }
    r := Parsed(exe, args, env, Complete);
  }

  // ---- The layout ----

  predicate Free(s: Bytes, b: byte) {
    forall k :: 0 <= k < |s| ==> s[k] != b
  }

  predicate NulFree(ss: seq<Bytes>) {
    forall k :: 0 <= k < |ss| ==> Free(ss[k], 0)
  }

  function Int32Bytes(n: nat): Bytes
    requires n < 0x8000_0000
  {
    var high := n / 0x100;
    [(n % 0x100) as byte, (high % 0x100) as byte, (high / 0x100 % 0x100) as byte, (high / 0x100 / 0x100) as byte]
  }

  function Nuls(n: nat): Bytes {
    seq(n, _ => 0)
  }

  /** Each string with its terminating zero byte. */
  function Strings(ss: seq<Bytes>): Bytes {
    if ss == [] then [] else ss[0] + ([0] + Strings(ss[1..]))
  }

  datatype Pair = Pair(key: Bytes, value: Bytes) {
    predicate Valid() {
      key != [] && Free(key, 0) && Free(key, EQUALS) && Free(value, 0)
    }

    function Text(): Bytes {
      key + ([EQUALS] + value)
    }
  }

  function EnvBytes(env: seq<Pair>): Bytes {
    if env == [] then [] else env[0].Text() + ([0] + EnvBytes(env[1..]))
  }

  /** What a process was started with, and the path and padding that the kernel writes before it. */
  datatype Start = Start(path: Bytes, padding: nat, argv: seq<Bytes>, env: seq<Pair>) {
    predicate Valid() {
      && Free(path, 0)
      && 0 < |argv| < 0x8000_0000 && argv[0] != [] && NulFree(argv)
      && forall k :: 0 <= k < |env| ==> env[k].Valid()
    }

    /** Everything before the first argument. */
    function Lead(): Bytes
      requires Valid()
    {
      Int32Bytes(|argv|) + (path + Nuls(1 + padding))
    }

    function Encoded(): Bytes
      requires Valid()
    {
      Lead() + (Strings(argv) + EnvBytes(env))
    }
  }

  /** The environment as a map; of several values for a key the last one stays. */
  function Puts(env: map<Bytes, Bytes>, pairs: seq<Pair>): map<Bytes, Bytes>
    decreases |pairs|
  {
    if |pairs| == 0 then env else Puts(env[pairs[0].key := pairs[0].value], pairs[1..])
  }

  lemma {:induction false} PutsKeepsDistinctKeys(env: map<Bytes, Bytes>, pairs: seq<Pair>, key: Bytes)
    requires forall i, j :: 0 <= i < j < |pairs| ==> pairs[i].key != pairs[j].key
    ensures forall i :: 0 <= i < |pairs| && pairs[i].key == key ==>
      key in Puts(env, pairs) && Puts(env, pairs)[key] == pairs[i].value
    ensures (forall i :: 0 <= i < |pairs| ==> pairs[i].key != key) ==>
      (key in Puts(env, pairs) <==> key in env) && (key in env ==> Puts(env, pairs)[key] == env[key])
    decreases |pairs|
  {
    if pairs != [] {
      PutsKeepsDistinctKeys(env[pairs[0].key := pairs[0].value], pairs[1..], key);
      assert forall i :: 1 <= i < |pairs| ==> pairs[i] == pairs[1..][i - 1];
    }
  }

  // ---- Reading one string, the header and the padding ----

  lemma Int32OfBytes(n: nat)
    requires n < 0x8000_0000
    ensures Int32(Int32Bytes(n)) == n
  {
    var q1 := n / 0x100;
    var q2 := q1 / 0x100;
    var q3 := q2 / 0x100;
    assert n == 0x100 * q1 + n % 0x100 && q1 == 0x100 * q2 + q1 % 0x100 && q2 == 0x100 * q3 + q2 % 0x100;
    assert q3 % 0x100 == q3;
  }

  lemma Parts(s: Bytes, b: byte, tail: Bytes)
    ensures var all := s + ([b] + tail);
      all[|s|] == b && all[..|s|] == s && all[|s| + 1..] == tail && all[|s|..] == [b] + tail
  {
  }

  lemma IndexOfFirst(s: Bytes, b: byte, tail: Bytes)
    requires Free(s, b)
    ensures IndexOf(s + ([b] + tail), b) == |s|
    ensures (s + ([b] + tail))[..|s|] == s && (s + ([b] + tail))[|s| + 1..] == tail
  {
    Parts(s, b, tail);
    IndexIs(s + ([b] + tail), b, |s|);
  }

  lemma IndexIs(s: Bytes, b: byte, i: nat)
    requires i < |s| && s[i] == b && Free(s[..i], b)
    ensures IndexOf(s, b) == i
  {
    assert forall k :: 0 <= k < i ==> s[k] == s[..i][k];
  }

  lemma IndexOfNone(s: Bytes, b: byte)
    requires Free(s, b)
    ensures IndexOf(s, b) == |s|
  {
  }

  lemma {:induction false} SkipsNuls(n: nat, s: Bytes)
    requires s == [] || s[0] != 0
    ensures SkipNuls(Nuls(n) + s) == s
  {
    if n == 0 {
      assert Nuls(n) + s == s;
    } else {
      SkipsNuls(n - 1, s);
      assert (Nuls(n) + s)[1..] == Nuls(n - 1) + s;
    }
  }

  /** What the parser makes of a path, at least one zero byte and then the bytes s. */
  lemma ParseAfterLead(argc: nat, path: Bytes, padding: nat, s: Bytes)
    requires argc < 0x8000_0000 && Free(path, 0) && (s == [] || s[0] != 0)
    ensures Parse(Int32Bytes(argc) + (path + Nuls(1 + padding)) + s) == Finish(ReadArgs(argc, s, []))
  {
    var padded := [0] + (Nuls(padding) + s);
    assert padded == Nuls(1 + padding) + s;
    LeadParts(Int32Bytes(argc), path, Nuls(1 + padding), s);
    Int32OfBytes(argc);
    IndexOfFirst(path, 0, Nuls(padding) + s);
    Parts(path, 0, Nuls(padding) + s);
    SkipsNuls(1 + padding, s);
  }

  lemma LeadParts(a: Bytes, b: Bytes, c: Bytes, s: Bytes)
    ensures var buf := a + (b + c) + s;
      buf[..|a|] == a && buf[|a|..] == b + (c + s)
  {
  }

  // ---- Reading the arguments, whole or cut ----

  lemma {:induction false} ReadsStrings(argv: seq<Bytes>, tail: Bytes, before: seq<Bytes>)
    requires NulFree(argv)
    ensures ReadArgs(|argv|, Strings(argv) + tail, before) == Reading(before + argv, tail, true)
    decreases |argv|
  {
    if argv == [] {
      Nothing(tail, before);
    } else {
      ReadsStrings(argv[1..], tail, before + [argv[0]]);
      StringsFirst(argv, tail);
      ReadsOne(|argv|, argv[0], Strings(argv[1..]) + tail, before);
      OneMore(before, argv);
    }
  }

  lemma ReadsOne(argc: nat, first: Bytes, others: Bytes, before: seq<Bytes>)
    requires argc > 0 && Free(first, 0)
    ensures ReadArgs(argc, first + ([0] + others), before) == ReadArgs(argc - 1, others, before + [first])
  {
    IndexOfFirst(first, 0, others);
  }

  lemma Nothing(tail: Bytes, before: seq<Bytes>)
    ensures [] + tail == tail && before + [] == before && [] + before == before
  {
  }

  lemma OneMore(before: seq<Bytes>, argv: seq<Bytes>)
    requires argv != []
    ensures before + [argv[0]] + argv[1..] == before + argv
  {
  }

  lemma StringsFirst(ss: seq<Bytes>, tail: Bytes)
    requires ss != []
    ensures Strings(ss) + tail == ss[0] + ([0] + (Strings(ss[1..]) + tail))
  {
  }

  lemma StringsCutInside(ss: seq<Bytes>, k: nat)
    requires ss != [] && k <= |ss[0]|
    ensures k <= |Strings(ss)| && Strings(ss)[..k] == ss[0][..k]
  {
  }

  lemma StringsCutPast(ss: seq<Bytes>, k: nat)
    requires ss != [] && k <= |Strings(ss[1..])|
    ensures var n := |ss[0]| + 1 + k;
      n <= |Strings(ss)| && Strings(ss)[..n] == ss[0] + ([0] + Strings(ss[1..])[..k])
  {
  }

  /** The arguments in the first k bytes: those whose zero byte is among them, and what there is of the next one. */
  function Came(argv: seq<Bytes>, k: nat): seq<Bytes> {
    if argv == [] || k == 0 then []
    else if k <= |argv[0]| then [argv[0][..k]]
    else [argv[0]] + Came(argv[1..], k - |argv[0]| - 1)
  }

  /** How many arguments are whole, with their zero byte, in the first k bytes. */
  function WholeStrings(argv: seq<Bytes>, k: nat): (n: nat)
    ensures n <= |argv|
  {
    if argv == [] || k <= |argv[0]| then 0 else 1 + WholeStrings(argv[1..], k - |argv[0]| - 1)
  }

  /** What came through: the whole arguments, and a part of the next one unless the cut is right behind a zero byte. */
  lemma {:induction false} CameIsWholeThenPart(argv: seq<Bytes>, k: nat)
    requires k <= |Strings(argv)|
    ensures var w := WholeStrings(argv, k);
      var start := |Strings(argv[..w])|;
      if start < k then w < |argv| && k - start <= |argv[w]| && Came(argv, k) == argv[..w] + [argv[w][..k - start]]
      else start == k && Came(argv, k) == argv[..w]
  {
    if argv != [] && k > |argv[0]| {
      var past := k - |argv[0]| - 1;
      var w := WholeStrings(argv[1..], past);
      CameIsWholeThenPart(argv[1..], past);
      assert argv[..1 + w][1..] == argv[1..][..w];
      assert argv[..1 + w] == [argv[0]] + argv[1..][..w];
    }
  }

  lemma ReadsCutString(argv: seq<Bytes>, k: nat, before: seq<Bytes>)
    requires argv != [] && Free(argv[0], 0) && k <= |argv[0]|
    ensures k <= |Strings(argv)|
    ensures ReadArgs(|argv|, Strings(argv)[..k], before) == Reading(before + Came(argv, k), [], false)
  {
    StringsCutInside(argv, k);
    IndexOfNone(argv[0][..k], 0);
    Nothing([], before);
  }

  lemma ReadsPastFirst(argv: seq<Bytes>, past: nat, before: seq<Bytes>)
    requires argv != [] && Free(argv[0], 0) && past <= |Strings(argv[1..])|
    ensures |argv[0]| + 1 + past <= |Strings(argv)|
    ensures ReadArgs(|argv|, Strings(argv)[..|argv[0]| + 1 + past], before) ==
      ReadArgs(|argv| - 1, Strings(argv[1..])[..past], before + [argv[0]])
  {
    StringsCutPast(argv, past);
    ReadsOne(|argv|, argv[0], Strings(argv[1..])[..past], before);
  }

  lemma {:induction false} ReadsCutStrings(argv: seq<Bytes>, k: nat, before: seq<Bytes>)
    requires NulFree(argv) && k < |Strings(argv)|
    ensures ReadArgs(|argv|, Strings(argv)[..k], before) == Reading(before + Came(argv, k), [], false)
    decreases |argv|
  {
    if k <= |argv[0]| {
      ReadsCutString(argv, k, before);
    } else {
      var past := k - |argv[0]| - 1;
      ReadsCutStrings(argv[1..], past, before + [argv[0]]);
      ReadsPastFirst(argv, past, before);
      OneMore(before, Came(argv, k));
    }
  }

  // ---- Reading the environment, whole or cut ----

  predicate AllValid(pairs: seq<Pair>) {
    forall k :: 0 <= k < |pairs| ==> pairs[k].Valid()
  }

  lemma ReadsPair(p: Pair, others: Bytes, env: map<Bytes, Bytes>)
    requires p.Valid()
    ensures Free(p.Text(), 0)
    ensures ReadEnv(p.Text() + ([0] + others), env) == ReadEnv(others, env[p.key := p.value])
  {
    PutsText(p, env);
    TextIsFree(p);
    IndexOfFirst(p.Text(), 0, others);
  }

  lemma PutsText(p: Pair, env: map<Bytes, Bytes>)
    requires p.Valid()
    ensures Put(env, p.Text()) == env[p.key := p.value]
  {
    IndexOfFirst(p.key, EQUALS, p.value);
  }

  lemma TextIsFree(p: Pair)
    requires p.Valid()
    ensures p.Text() != [] && Free(p.Text(), 0)
  {
  }

  lemma {:induction false} ReadsPairs(pairs: seq<Pair>, tail: Bytes, env: map<Bytes, Bytes>)
    requires AllValid(pairs)
    ensures ReadEnv(EnvBytes(pairs) + tail, env) == ReadEnv(tail, Puts(env, pairs))
    decreases |pairs|
  {
    if pairs == [] {
      assert EnvBytes(pairs) + tail == tail;
    } else {
      var p := pairs[0];
      EnvBytesFirst(pairs, tail);
      ReadsPair(p, EnvBytes(pairs[1..]) + tail, env);
      ReadsPairs(pairs[1..], tail, env[p.key := p.value]);
    }
  }

  lemma EnvBytesFirst(pairs: seq<Pair>, tail: Bytes)
    requires pairs != []
    ensures EnvBytes(pairs) + tail == pairs[0].Text() + ([0] + (EnvBytes(pairs[1..]) + tail))
  {
  }

  /** How many pairs are whole, with their zero byte, in the first k bytes. */
  function Whole(pairs: seq<Pair>, k: nat): (n: nat)
    ensures n <= |pairs|
  {
    if pairs == [] || k <= |pairs[0].Text()| then 0 else 1 + Whole(pairs[1..], k - |pairs[0].Text()| - 1)
  }

  /** Whether the first k bytes end right behind a zero byte, or are none. */
  predicate AtBoundary(pairs: seq<Pair>, k: nat) {
    k == |EnvBytes(pairs[..Whole(pairs, k)])|
  }

  /** The first k bytes are some whole variables and a part, perhaps empty, of the next one. */
  lemma {:induction false} CutIntoWholeAndPart(pairs: seq<Pair>, k: nat) returns (part: Bytes)
    requires AllValid(pairs) && k <= |EnvBytes(pairs)|
    ensures EnvBytes(pairs)[..k] == EnvBytes(pairs[..Whole(pairs, k)]) + part
    ensures Free(part, 0) && (part == [] <==> AtBoundary(pairs, k))
    decreases |pairs|
  {
    if pairs == [] || k <= |pairs[0].Text()| {
      part := EnvBytes(pairs)[..k];
      if pairs != [] {
        TextIsFree(pairs[0]);
        EnvBytesCutInside(pairs, k);
      }
      assert pairs[..0] == [] && [] + part == part;
    } else {
      var past := k - |pairs[0].Text()| - 1;
      part := CutIntoWholeAndPart(pairs[1..], past);
      WholeOneMore(pairs, past);
      EnvBytesOneMore(pairs, past, Whole(pairs[1..], past), part);
    }
  }

  lemma EnvBytesCutInside(pairs: seq<Pair>, k: nat)
    requires pairs != [] && k <= |pairs[0].Text()|
    ensures k <= |EnvBytes(pairs)| && EnvBytes(pairs)[..k] == pairs[0].Text()[..k]
  {
  }

  lemma EnvBytesCutPast(pairs: seq<Pair>, k: nat)
    requires pairs != [] && k <= |EnvBytes(pairs[1..])|
    ensures var n := |pairs[0].Text()| + 1 + k;
      n <= |EnvBytes(pairs)| && EnvBytes(pairs)[..n] == pairs[0].Text() + ([0] + EnvBytes(pairs[1..])[..k])
  {
  }

  lemma EnvBytesOneMore(pairs: seq<Pair>, past: nat, w: nat, part: Bytes)
    requires pairs != [] && past <= |EnvBytes(pairs[1..])| && w <= |pairs[1..]|
    requires EnvBytes(pairs[1..])[..past] == EnvBytes(pairs[1..][..w]) + part
    ensures |pairs[0].Text()| + 1 + past <= |EnvBytes(pairs)|
    ensures EnvBytes(pairs)[..|pairs[0].Text()| + 1 + past] == EnvBytes(pairs[..1 + w]) + part
  {
    EnvBytesCutPast(pairs, past);
    assert pairs[..1 + w][1..] == pairs[1..][..w];
    EnvBytesFirst(pairs[..1 + w], part);
  }

  lemma WholeOneMore(pairs: seq<Pair>, k: nat)
    requires pairs != []
    ensures var n := |pairs[0].Text()| + 1 + k;
      && Whole(pairs, n) == 1 + Whole(pairs[1..], k)
      && (AtBoundary(pairs, n) <==> AtBoundary(pairs[1..], k))
  {
    var w := Whole(pairs[1..], k);
    assert pairs[..1 + w][1..] == pairs[1..][..w];
  }

  lemma ReadsCutPairs(pairs: seq<Pair>, k: nat, env: map<Bytes, Bytes>)
    requires AllValid(pairs) && k <= |EnvBytes(pairs)|
    ensures ReadEnv(EnvBytes(pairs)[..k], env) ==
      (Puts(env, pairs[..Whole(pairs, k)]), if AtBoundary(pairs, k) then Complete else TruncatedEnv)
  {
    var part := CutIntoWholeAndPart(pairs, k);
    ReadsPairs(pairs[..Whole(pairs, k)], part, env);
    IndexOfNone(part, 0);
  }

  // ---- The results about the parser ----

  lemma ParseEncoded(s: Start, tail: Bytes)
    requires s.Valid()
    ensures Parse(s.Lead() + (Strings(s.argv) + tail)) == Finish(Reading(s.argv, tail, true))
  {
    FirstByte(s.argv);
    ParseAfterLead(|s.argv|, s.path, s.padding, Strings(s.argv) + tail);
    ReadsStrings(s.argv, tail, []);
    Nothing([], s.argv);
  }

  /**
   The parser inverts the layout, whatever the padding is, and whether the environment ends with the buffer or with an
   empty string that anything may follow.
   */
  lemma RoundTrip(s: Start, ending: Bytes)
    requires s.Valid() && (ending == [] || ending[0] == 0)
    ensures Parse(s.Encoded() + ending) == Parsed(s.argv[0], s.argv[1..], Puts(map[], s.env), Complete)
  {
    var tail := EnvBytes(s.env) + ending;
    Regroup(s.Lead(), Strings(s.argv), EnvBytes(s.env), ending);
    ParseEncoded(s, tail);
    ReadsPairs(s.env, ending, map[]);
  }

  lemma Regroup(a: Bytes, b: Bytes, c: Bytes, d: Bytes)
    ensures a + (b + c) + d == a + (b + (c + d))
  {
  }

  /** With distinct keys, the environment read back has exactly these keys with these values. */
  lemma EnvironmentComesBack(s: Start, ending: Bytes, key: Bytes)
    requires s.Valid() && (ending == [] || ending[0] == 0)
    requires forall i, j :: 0 <= i < j < |s.env| ==> s.env[i].key != s.env[j].key
    ensures var env := Parse(s.Encoded() + ending).env;
      && (key in env <==> exists i :: 0 <= i < |s.env| && s.env[i].key == key)
      && forall i :: 0 <= i < |s.env| && s.env[i].key == key ==> key in env && env[key] == s.env[i].value
  {
    RoundTrip(s, ending);
    PutsKeepsDistinctKeys(map[], s.env, key);
  }

  /** What the parser returns for a buffer that was cut after the first k bytes of the arguments. */
  function Truncation(argv: seq<Bytes>, k: nat): Parsed {
    var (exe, args) := SplitArgv(Came(argv, k));
    Parsed(exe, args, map[], Truncated)
  }

  /**
   Cut anywhere before the zero byte of the last argument, the buffer is reported as truncated, and exactly what came
   through of the arguments is returned.
   */
  lemma CutInArguments(s: Start, n: nat)
    requires s.Valid() && n < |s.Lead()| + |Strings(s.argv)|
    ensures Parse(s.Encoded()[..n]) == Truncation(s.argv, if n < |s.Lead()| then 0 else n - |s.Lead()|)
  {
    var padded := n - 4 - |s.path|;
    if n >= |s.Lead()| {
      CutInsideArguments(s, n - |s.Lead()|);
    } else if padded > 0 {
      CutInPadding(s, padded);
    } else if n >= 4 {
      CutInPath(s, n - 4);
    }
  }

  lemma CutInsideArguments(s: Start, k: nat)
    requires s.Valid() && k < |Strings(s.argv)|
    ensures Parse(s.Encoded()[..|s.Lead()| + k]) == Truncation(s.argv, k)
  {
    CutPast(s.Lead(), Strings(s.argv), EnvBytes(s.env), k);
    EndsInsideArguments(s, k);
  }

  lemma EndsInsideArguments(s: Start, k: nat)
    requires s.Valid() && k < |Strings(s.argv)|
    ensures Parse(s.Lead() + Strings(s.argv)[..k]) == Truncation(s.argv, k)
  {
    FirstByte(s.argv);
    ParseAfterLead(|s.argv|, s.path, s.padding, Strings(s.argv)[..k]);
    ReadsCutStrings(s.argv, k, []);
    Nothing([], Came(s.argv, k));
  }

  lemma FirstByte(ss: seq<Bytes>)
    requires ss != [] && ss[0] != [] && Free(ss[0], 0)
    ensures Strings(ss) != [] && Strings(ss)[0] != 0
  {
  }

  lemma CutInPadding(s: Start, k: nat)
    requires s.Valid() && 0 < k <= 1 + s.padding
    ensures Parse(s.Encoded()[..4 + |s.path| + k]) == Truncation(s.argv, 0)
  {
    CutPadding(Int32Bytes(|s.argv|), s.path, s.padding, Strings(s.argv) + EnvBytes(s.env), k);
    ParseAfterLead(|s.argv|, s.path, k - 1, []);
  }

  lemma CutInPath(s: Start, k: nat)
    requires s.Valid() && k <= |s.path|
    ensures Parse(s.Encoded()[..4 + k]) == Truncation(s.argv, 0)
  {
    CutPath(Int32Bytes(|s.argv|), s.path, Nuls(1 + s.padding), Strings(s.argv) + EnvBytes(s.env), k);
    IndexOfNone(s.path[..k], 0);
  }

  lemma CutPast(a: Bytes, b: Bytes, c: Bytes, k: nat)
    requires k <= |b|
    ensures (a + (b + c))[..|a| + k] == a + b[..k]
  {
  }

  lemma CutPadding(a: Bytes, path: Bytes, padding: nat, tail: Bytes, k: nat)
    requires 0 < k <= 1 + padding
    ensures (a + (path + Nuls(1 + padding)) + tail)[..|a| + |path| + k] == a + (path + Nuls(k)) + []
  {
  }

  lemma CutPath(a: Bytes, path: Bytes, nuls: Bytes, tail: Bytes, k: nat)
    requires k <= |path|
    ensures var cut := (a + (path + nuls) + tail)[..|a| + k];
      cut[..|a|] == a && cut[|a|..] == path[..k]
  {
  }

  /**
   Cut later, all arguments are returned, with the variables that are whole; the cut is reported exactly when it falls
   inside a variable.
   */
  lemma CutInEnvironment(s: Start, k: nat)
    requires s.Valid() && k <= |EnvBytes(s.env)|
    ensures Parse(s.Encoded()[..|s.Lead()| + |Strings(s.argv)| + k]) ==
      Parsed(s.argv[0], s.argv[1..], Puts(map[], s.env[..Whole(s.env, k)]),
             if AtBoundary(s.env, k) then Complete else TruncatedEnv)
  {
    CutTwice(s.Lead(), Strings(s.argv), EnvBytes(s.env), k);
    EndsInEnvironment(s, k);
  }

  lemma EndsInEnvironment(s: Start, k: nat)
    requires s.Valid() && k <= |EnvBytes(s.env)|
    ensures Parse(s.Lead() + (Strings(s.argv) + EnvBytes(s.env)[..k])) ==
      Parsed(s.argv[0], s.argv[1..], Puts(map[], s.env[..Whole(s.env, k)]),
             if AtBoundary(s.env, k) then Complete else TruncatedEnv)
  {
    ParseEncoded(s, EnvBytes(s.env)[..k]);
    ReadsCutPairs(s.env, k, map[]);
  }

  lemma CutTwice(a: Bytes, b: Bytes, c: Bytes, k: nat)
    requires k <= |c|
    ensures (a + (b + c))[..|a| + |b| + k] == a + (b + c[..k])
  {
  }
}
