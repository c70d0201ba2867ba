/** Compression of dotted logger names. */
module LoggerName {

  // ---------------------------------------------------------------- split and join

  function Split(s: string): (parts: seq<string>)
    ensures parts != [] && forall i :: 0 <= i < |parts| ==> '.' !in parts[i]
  {
    if s == "" then [""]
    else
      var rest := Split(s[1..]);
      if s[0] == '.' then [""] + rest else [[s[0]] + rest[0]] + rest[1..]
  }

  function Join(parts: seq<string>): string
    requires parts != []
  {
    if |parts| == 1 then parts[0] else parts[0] + "." + Join(parts[1..])
  }

  /** The length of the joined parts. */
  function Length(parts: seq<string>): nat {
    if parts == [] then 0 else |parts[0]| + Length(parts[1..])
  }

  lemma {:induction false} JoinLength(parts: seq<string>)
    requires parts != []
    ensures |Join(parts)| == Length(parts) + |parts| - 1
  {
    if |parts| > 1 { JoinLength(parts[1..]); }
  }

  lemma {:induction false} JoinOfSplit(s: string)
    ensures Join(Split(s)) == s
  {
    if s != "" {
      var rest := Split(s[1..]);
      JoinOfSplit(s[1..]);
      if s[0] == '.' {
        assert Split(s)[1..] == rest;
        assert Join(Split(s)) == "" + "." + Join(rest);
      } else {
        assert Split(s)[1..] == rest[1..];
        assert [s[0]] + s[1..] == s;
      }
    }
  }

  lemma {:induction false} SplitOfPlain(s: string)
    requires '.' !in s
    ensures Split(s) == [s]
  {
    if s != "" {
      assert s == [s[0]] + s[1..];
      SplitOfPlain(s[1..]);
    }
  }

  lemma {:induction false} SplitAtDot(s: string, rest: string)
    requires '.' !in s
    ensures Split(s + "." + rest) == [s] + Split(rest)
  {
    var whole := s + "." + rest;
    if s == "" {
      assert whole[1..] == rest;
    } else {
      assert whole[1..] == s[1..] + "." + rest;
      assert s == [s[0]] + s[1..];
      SplitAtDot(s[1..], rest);
    }
  }

  lemma {:induction false} SplitOfJoin(parts: seq<string>)
    requires parts != [] && forall i :: 0 <= i < |parts| ==> '.' !in parts[i]
    ensures Split(Join(parts)) == parts
  {
    if |parts| == 1 {
      SplitOfPlain(parts[0]);
    } else {
      SplitAtDot(parts[0], Join(parts[1..]));
      SplitOfJoin(parts[1..]);
    }
  }

  // ---------------------------------------------------------------- what fits

  /** The length of the name when its last `k` parts are written in full and the others as one letter each. */
  function Expanded(parts: seq<string>, k: nat): int
    requires k <= |parts|
  {
    2 * |parts| - 1 + Length(parts[|parts| - k..]) - k
  }

  lemma ExpandedNext(parts: seq<string>, k: nat)
    requires k < |parts|
    ensures Expanded(parts, k + 1) == Expanded(parts, k) + |parts[|parts| - 1 - k]| - 1
  {
  }

  lemma ExpandedAll(name: string)
    ensures Expanded(Split(name), |Split(name)|) == |name|
  {
    JoinOfSplit(name);
    JoinLength(Split(name));
  }

  /** Expanding part after part from the end, `k` is where it first goes wrong. */
  ghost predicate StopsAt(parts: seq<string>, length: int, k: nat) {
    k < |parts| && Expanded(parts, k + 1) > length && forall j :: 1 <= j <= k ==> Expanded(parts, j) <= length
  }

  lemma {:induction false} ExpandedGrows(parts: seq<string>, j: nat, k: nat)
    requires j <= k <= |parts| && forall i :: 0 <= i < |parts| ==> parts[i] != ""
    ensures Expanded(parts, j) <= Expanded(parts, k)
  {
    if j < k {
      ExpandedGrows(parts, j, k - 1);
      ExpandedNext(parts, k - 1);
    }
  }

  /** If no part is empty, the parts written in full are the longest suffix that fits. */
  lemma LongestSuffix(parts: seq<string>, length: int, k: nat, j: nat)
    requires StopsAt(parts, length, k) && j <= |parts| && forall i :: 0 <= i < |parts| ==> parts[i] != ""
    ensures 1 <= j ==> (Expanded(parts, j) <= length <==> j <= k)
  {
    if k < j { ExpandedGrows(parts, k + 1, j); }
  }

  // ---------------------------------------------------------------- the result

  function Max(a: int, b: int): int { if a >= b then a else b }

  /** Part `i` of the result when the last `k` parts are kept. If not even the last part is, it still gets the room that
      single letters leave. */
  function Shown(parts: seq<string>, length: int, k: nat, i: nat): string
    requires i < |parts| && parts[i] != ""
  {
    if i >= |parts| - k then parts[i]
    else if i == |parts| - 1 then parts[i][..Min(|parts[i]|, Max(1, length - (2 * |parts| - 1) + 1))]
    else parts[i][..1]
  }

  function Min(a: int, b: int): int { if a <= b then a else b }

  ghost predicate Compressed(parts: seq<string>, length: int, k: nat, out: seq<string>) {
    && |out| == |parts| && k <= |parts|
    && (forall i :: |parts| - k <= i < |parts| ==> out[i] == parts[i])
    && (forall i :: 0 <= i < |parts| - k ==> parts[i] != "" && out[i] == Shown(parts, length, k, i))
  }

  datatype Result = Ok(name: string) | IndexError

  function Reverse<T>(s: seq<T>): (r: seq<T>)
    ensures |r| == |s| && forall i :: 0 <= i < |s| ==> r[i] == s[|s| - 1 - i]
  {
    if s == [] then [] else Reverse(s[1..]) + [s[0]]
  }

  /** `[p[0] for p in parts]`. */
  method Initials(parts: seq<string>) returns (ok: bool, letters: seq<string>)
    ensures ok <==> "" !in parts
    ensures ok ==>
              |letters| == |parts| && forall i :: 0 <= i < |parts| ==> parts[i] != "" && letters[i] == parts[i][..1]
  {
    letters := [];
    var i := 0;
    while i < |parts|
      invariant 0 <= i <= |parts| && |letters| == i
      invariant forall j :: 0 <= j < i ==> parts[j] != "" && letters[j] == parts[j][..1]
    {
      if parts[i] == "" { return false, []; }
      letters := letters + [parts[i][..1]];
      i := i + 1;
    }
    ok := true;
  }

  /** What the loop does before its break at part `i`: the remaining parts become letters. */
  method Collapse(parts: seq<string>, length: int, reversed: seq<string>, i: nat, curLength: int)
    returns (ok: bool, newParts: seq<string>)
    requires reversed == Reverse(parts) && i < |parts| && (i == 0 ==> curLength == 2 * |parts| - 1)
    ensures ok <==> forall j :: 0 <= j < |parts| - i ==> parts[j] != ""
    ensures ok ==> Compressed(parts, length, i, Reverse(newParts))
  {
    var letters;
    ok, letters := Initials(reversed[i..]);
    EmptyAmong(parts, reversed, i);
    newParts := reversed[..i];
    if !ok { return; }
    newParts := newParts + letters;
    if i == 0 {
      var remaining := length - curLength;
      if remaining > 0 { newParts := newParts[0 := reversed[0][..Min(|reversed[0]|, remaining + 1)]]; }
    }
  }

  /** The loop and its break, on the reversed parts. */
  method Expand(parts: seq<string>, length: int) returns (ok: bool, newParts: seq<string>, ghost k: nat)
    requires parts != [] && Expanded(parts, |parts|) > length
    ensures StopsAt(parts, length, k)
    ensures ok <==> forall i :: 0 <= i < |parts| - k ==> parts[i] != ""
    ensures ok ==> Compressed(parts, length, k, Reverse(newParts))
  {
    var reversed := Reverse(parts);
    newParts := [];
    var curLength := |parts| * 2 - 1;
    var i := 0;
    assert parts[|parts|..] == [];
    while i < |reversed|
      invariant 0 <= i <= |parts| && newParts == reversed[..i] && curLength == Expanded(parts, i)
      invariant forall j :: 1 <= j <= i ==> Expanded(parts, j) <= length
    {
      ExpandedNext(parts, i);
      var part := reversed[i];
      var nextLen := curLength + |part| - 1;
      if nextLen > length {
        k := i;
        ok, newParts := Collapse(parts, length, reversed, i, curLength);
        return;
      }
      newParts := newParts + [part];
      curLength := nextLen;
      i := i + 1;
    }
    assert false;
  }

  lemma EmptyAmong(parts: seq<string>, reversed: seq<string>, i: nat)
    requires i <= |parts| && reversed == Reverse(parts)
    ensures "" !in reversed[i..] <==> forall j :: 0 <= j < |parts| - i ==> parts[j] != ""
  {
    if "" !in reversed[i..] {
      forall j | 0 <= j < |parts| - i ensures parts[j] != "" {
        assert reversed[i..][|parts| - 1 - j - i] == parts[j];
      }
    }
  }

  lemma {:induction false} LengthAppend(a: seq<string>, b: seq<string>)
    ensures Length(a + b) == Length(a) + Length(b)
  {
    if a == [] {
      assert a + b == b;
    } else {
      assert (a + b)[1..] == a[1..] + b;
      LengthAppend(a[1..], b);
    }
  }

  lemma {:induction false} LengthOfLetters(letters: seq<string>)
    requires forall i :: 0 <= i < |letters| ==> |letters[i]| == 1
    ensures Length(letters) == |letters|
  {
    if letters != [] { LengthOfLetters(letters[1..]); }
  }

  /** The exact length of the result. */
  lemma CompressedLength(parts: seq<string>, length: int, k: nat, out: seq<string>)
    requires parts != [] && StopsAt(parts, length, k) && Compressed(parts, length, k, out)
    ensures |Join(out)| == if k > 0 then Expanded(parts, k) else Max(length, 2 * |parts| - 1)
  {
    var n := |parts|;
    JoinLength(out);
    var m := if k > 0 then n - k else n - 1;
    LengthOfLetters(out[..m]);
    LengthAppend(out[..m], out[m..]);
    assert out == out[..m] + out[m..];
    if k > 0 {
      assert out[m..] == parts[m..];
    } else {
      ExpandedNext(parts, 0);
      assert parts[n..] == [];
      assert out[m..] == [out[m]];
      LengthOne(out[m]);
    }
  }

  lemma LengthOne(part: string)
    ensures Length([part]) == |part|
  {
  }

  lemma ShownHasNoDot(parts: seq<string>, length: int, k: nat, out: seq<string>)
    requires Compressed(parts, length, k, out) && forall i :: 0 <= i < |parts| ==> '.' !in parts[i]
    ensures forall i :: 0 <= i < |out| ==> '.' !in out[i]
  {
  }

  /** The outcome for a name that is too long: `k` parts are kept, and it fails exactly if a part before them is
      empty. */
  ghost predicate CompressedTo(parts: seq<string>, length: int, k: nat, r: Result) {
    && StopsAt(parts, length, k)
    && (r.Ok? <==> forall i :: 0 <= i < |parts| - k ==> parts[i] != "")
    && (r.Ok? ==> Compressed(parts, length, k, Split(r.name)))
  }

  /** There is one such outcome. */
  lemma OneOutcome(parts: seq<string>, length: int, k: nat, r: Result, k': nat, r': Result)
    requires CompressedTo(parts, length, k, r) && CompressedTo(parts, length, k', r')
    ensures k == k' && r == r'
  {
    if k < k' { assert false; }
    if k' < k { assert false; }
    if r.Ok? {
      assert Split(r.name) == Split(r'.name);
      JoinOfSplit(r.name);
      JoinOfSplit(r'.name);
    }
  }

  /** `compress_logger_name`. A name that is too long keeps its number of parts, each shortened to a non-empty prefix or
      kept, and ends up no longer than the limit or than one letter per part. */
  method Compress(name: string, length: int) returns (r: Result)
    ensures |name| <= length ==> r == Ok(name)
    ensures |name| > length ==> exists k :: CompressedTo(Split(name), length, k, r)
    ensures |name| > length && r.Ok? ==> |r.name| <= Max(length, 2 * |Split(name)| - 1)
  {
    if |name| <= length { return Ok(name); }
    var parts := Split(name);
    ExpandedAll(name);
    var ok, newParts;
    ghost var k;
    ok, newParts, k := Expand(parts, length);
    r := IndexError;
    if ok {
      newParts := Reverse(newParts);
      r := Ok(Join(newParts));
      ShownHasNoDot(parts, length, k, newParts);
      SplitOfJoin(newParts);
      CompressedLength(parts, length, k, newParts);
    }
    assert CompressedTo(parts, length, k, r);
  }

  /** An empty part among those to be shortened is fatal: two dots with limit one. */
  lemma DotsRaiseIndexError(k: nat, r: Result)
    requires CompressedTo(Split(".."), 1, k, r)
    ensures k == 0 && r == IndexError
  {
    DotsStopAtOnce();
    OneOutcome(Split(".."), 1, k, r, 0, IndexError);
  }

  lemma DotsStopAtOnce()
    ensures CompressedTo(Split(".."), 1, 0, IndexError)
  {
    assert Split("") == [""] && "."[1..] == "" && ".."[1..] == ".";
    assert Split(".") == ["", ""];
    assert Split("..") == ["", "", ""];
    var parts := Split("..");
    assert parts[2..] == [""] && Length([""][1..]) == 0;
    assert Expanded(parts, 1) == 4;
    assert parts[0] == "";
  }
}
