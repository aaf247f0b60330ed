/** Types shared by the whole model: failure wrappers, bytes, the Accuracy
    enum, .NET whitespace, the in-memory file record and string helpers. */
module Common {

  datatype Option<T> = None | Some(value: T)

  /** The exceptions the modelled code throws or lets propagate. */
  datatype Error =
    | ArgumentNull(message: string)       // ArgumentNullException
    | Argument(message: string)           // ArgumentException
    | InvalidOperation(message: string)   // InvalidOperationException
    | General(message: string)            // System.Exception
    | FormatError                         // FormatException from Convert.ToInt32
    | OverflowError                       // OverflowException from Convert.ToInt32
    | IndexOutOfRange                     // IndexOutOfRangeException; also the page-range
                                          // exceptions of the PDF libraries (PdfPig's
                                          // ArgumentOutOfRangeException on a missing page,
                                          // the renderer's on a missing 0-based page)
    | NullReference                       // NullReferenceException
    | FileNotFound                        // FileNotFoundException
    | DivideByZero                        // DivideByZeroException
    | DirectoryNotFound                   // DirectoryNotFoundException
    | IOError                             // IOException (non-recursive delete of a non-empty folder)
    | OperationCanceled                   // OperationCanceledException
    | NotSupported(message: string)       // NotSupportedException
    | Engine(message: string)             // an exception raised inside a native engine

  datatype Result<T> = Ok(value: T) | Err(error: Error) {
    predicate IsFailure() { Err? }
    function PropagateFailure<U>(): Result<U>
      requires Err?
    {
      Err(error)
    }
    function Extract(): T
      requires Ok?
    {
      value
    }
  }

  /** Running steps in order until one fails: all the values, or the
      error of the first failing step. */
  function Collect<T>(steps: seq<Result<T>>): (r: Result<seq<T>>)
    ensures r.Ok? ==> |r.value| == |steps|
  {
    if steps == [] then Ok([])
    else
      var prefix :- Collect(steps[..|steps| - 1]);
      var last :- steps[|steps| - 1];
      Ok(prefix + [last])
  }

  predicate AllOk<T>(steps: seq<Result<T>>) {
    forall i :: 0 <= i < |steps| ==> steps[i].Ok?
  }

  /** Success means every step succeeded and value k is step k's value;
      failure carries the error of a step all of whose predecessors succeeded. */
  lemma {:induction false} CollectMeaning<T>(steps: seq<Result<T>>)
    ensures Collect(steps).Ok? <==> AllOk(steps)
    ensures Collect(steps).Ok? ==> forall k :: 0 <= k < |steps| ==> steps[k] == Ok(Collect(steps).value[k])
    ensures Collect(steps).Err? ==>
      exists k :: 0 <= k < |steps| && steps[k] == Err(Collect(steps).error) && AllOk(steps[..k])
  {
    if steps != [] {
      var init := steps[..|steps| - 1];
      CollectMeaning(init);
      assert forall i :: 0 <= i < |init| ==> init[i] == steps[i];
      if Collect(init).Err? {
        var k :| 0 <= k < |init| && init[k] == Err(Collect(init).error) && AllOk(init[..k]);
        assert init[..k] == steps[..k];
      } else if steps[|steps| - 1].Err? {
        assert init == steps[..|steps| - 1];
      }
    }
  }

  /** Value k of a successful collection is what step k yielded. */
  lemma CollectValue<T>(steps: seq<Result<T>>, k: nat)
    requires Collect(steps).Ok? && k < |steps|
    ensures steps[k] == Ok(Collect(steps).value[k])
  {
    CollectMeaning(steps);
  }

  /** A prefix one longer is the prefix and the next element. */
  lemma TakeOneMore<T>(s: seq<T>, k: nat)
    requires k < |s|
    ensures s[..k + 1] == s[..k] + [s[k]]
  {
  }

  /** One more successful step extends the collected prefix. */
  lemma CollectStep<T>(steps: seq<Result<T>>, k: nat, prefix: seq<T>)
    requires k < |steps| && Collect(steps[..k]) == Ok(prefix) && steps[k].Ok?
    ensures Collect(steps[..k + 1]) == Ok(prefix + [steps[k].value])
  {
    assert steps[..k + 1][..k] == steps[..k];
  }

  /** A failing step after a successful prefix decides the whole result. */
  lemma {:induction false} CollectFails<T>(steps: seq<Result<T>>, k: nat, prefix: seq<T>)
    requires k < |steps| && Collect(steps[..k]) == Ok(prefix) && steps[k].Err?
    ensures Collect(steps) == Err(steps[k].error)
    decreases |steps|
  {
    var init := steps[..|steps| - 1];
    if k < |init| {
      assert init[..k] == steps[..k];
      CollectFails(init, k, prefix);
    } else {
      assert init == steps[..k];
    }
  }

  /** The index of the first failing step, or the number of steps when
      none fails. */
  function FirstErr<T>(steps: seq<Result<T>>): (k: nat)
    ensures k <= |steps| && AllOk(steps[..k])
    ensures k < |steps| ==> steps[k].Err?
  {
    if steps == [] || steps[0].Err? then 0
    else
      1 + FirstErr(steps[1..])
  }

  /** The step whose failure stops the run, found by the loop after a
      successful prefix, is the first failing step. */
  lemma FirstErrIsFailure<T>(steps: seq<Result<T>>, k: nat, prefix: seq<T>)
    requires k < |steps| && Collect(steps[..k]) == Ok(prefix) && steps[k].Err?
    ensures FirstErr(steps) == k
  {
    CollectMeaning(steps[..k]);
    var j := FirstErr(steps);
    forall i | 0 <= i < k
      ensures steps[i].Ok?
    {
      assert steps[..k][i] == steps[i];
    }
    forall i | 0 <= i < j
      ensures steps[i].Ok?
    {
      assert steps[..j][i] == steps[i];
    }
  }

  newtype byte = x: int | 0 <= x < 256
  type Bytes = seq<byte>

  /** The Accuracy enum. A C# enum variable can hold any integer, so values
      outside the three named members are kept as `OtherValue`. */
  datatype Accuracy = Low | Medium | Hight | OtherValue(code: int)

  /** char.IsWhiteSpace, which is also the set the regular expression class
      \s matches: U+0009..U+000D, U+0085 and the Unicode separators. */
  predicate IsWhiteSpace(c: char) {
    ('\t' <= c <= '\r') || c == ' ' || c == '\U{0085}' || c == '\U{00A0}' || c == '\U{1680}'
    || ('\U{2000}' <= c <= '\U{200A}') || c == '\U{2028}' || c == '\U{2029}'
    || c == '\U{202F}' || c == '\U{205F}' || c == '\U{3000}'
  }

  /** string.IsNullOrEmpty on a nullable string. */
  predicate IsNullOrEmpty(s: Option<string>) {
    s.None? || s.value == []
  }

  /** string.IsNullOrWhiteSpace on a nullable string. */
  predicate IsNullOrWhiteSpace(s: Option<string>) {
    s.None? || forall i :: 0 <= i < |s.value| ==> IsWhiteSpace(s.value[i])
  }

  /** The characters of `s` that are not whitespace, in order. */
  function NonWhiteSpace(s: string): (r: string)
    ensures |r| <= |s|
    ensures forall i :: 0 <= i < |r| ==> !IsWhiteSpace(r[i])
  {
    if s == [] then []
    else (if IsWhiteSpace(s[0]) then [] else [s[0]]) + NonWhiteSpace(s[1..])
  }

  lemma {:induction false} NonWhiteSpaceAppend(a: string, b: string)
    ensures NonWhiteSpace(a + b) == NonWhiteSpace(a) + NonWhiteSpace(b)
  {
    if a == [] {
      assert a + b == b;
    } else {
      assert (a + b)[1..] == a[1..] + b;
      NonWhiteSpaceAppend(a[1..], b);
    }
  }

  lemma {:induction false} NonWhiteSpaceOfBlank(s: string)
    requires forall i :: 0 <= i < |s| ==> IsWhiteSpace(s[i])
    ensures NonWhiteSpace(s) == []
  {
    if s != [] {
      NonWhiteSpaceOfBlank(s[1..]);
    }
  }

  /** The in-memory file record (the services read its Page field). A null
      FileName or RunTime is written "" and None. */
  datatype InMemoryFile = InMemoryFile(
    fileName: string,
    page: int,
    accuracy: real,
    appliedOcr: bool,
    runTime: Option<string>,
    content: Bytes)

  /** An InMemoryFile with every field at its default except the two given. */
  function NamedFile(fileName: string, content: Bytes): (f: InMemoryFile)
    ensures f.fileName == fileName && f.content == content
    ensures f.page == 0 && !f.appliedOcr && f.runTime.None?
  {
    InMemoryFile(fileName, 0, 0.0, false, None, content)
  }

  /** string.Split(sep): the fields between separators, empty ones included. */
  function Split(s: string, sep: char): (r: seq<string>)
    ensures |r| >= 1
  {
    if s == [] then [[]]
    else
      var rest := Split(s[1..], sep);
      if s[0] == sep then [[]] + rest else [[s[0]] + rest[0]] + rest[1..]
  }

  predicate Excludes(s: string, c: char) {
    forall i :: 0 <= i < |s| ==> s[i] != c
  }

  lemma {:induction false} SplitNoSeparator(s: string, sep: char)
    requires Excludes(s, sep)
    ensures Split(s, sep) == [s]
  {
    if s != [] {
      SplitNoSeparator(s[1..], sep);
      assert [s[0]] + s[1..] == s;
    }
  }

  /** Splitting at the first separator peels off the first field. */
  lemma {:induction false} SplitFirstField(a: string, sep: char, b: string)
    requires Excludes(a, sep)
    ensures Split(a + [sep] + b, sep) == [a] + Split(b, sep)
  {
    if a == [] {
      assert [sep] + b == [sep] + b;
      assert ([sep] + b)[1..] == b;
    } else {
      assert (a + [sep] + b)[1..] == a[1..] + [sep] + b;
      SplitFirstField(a[1..], sep, b);
      assert [a[0]] + a[1..] == a;
    }
  }

  /** The fields joined with one separator between each two (string.Join). */
  function Join(fields: seq<string>, sep: char): string
  {
    if fields == [] then []
    else if |fields| == 1 then fields[0]
    else fields[0] + [sep] + Join(fields[1..], sep)
  }

  /** Splitting the joined string gives back the fields when no field holds the separator. */
  lemma {:induction false} SplitJoin(fields: seq<string>, sep: char)
    requires |fields| >= 1
    requires forall i :: 0 <= i < |fields| ==> Excludes(fields[i], sep)
    ensures Split(Join(fields, sep), sep) == fields
  {
    if |fields| == 1 {
      SplitNoSeparator(fields[0], sep);
    } else {
      SplitJoin(fields[1..], sep);
      SplitFirstField(fields[0], sep, Join(fields[1..], sep));
    }
  }

  /** Ordinal (code-point) lexicographic order on strings. */
  predicate LexLess(a: string, b: string) {
    if a == [] then b != []
    else if b == [] then false
    else a[0] < b[0] || (a[0] == b[0] && LexLess(a[1..], b[1..]))
  }

  lemma {:induction false} LexLessCommonPrefix(p: string, a: string, b: string)
    ensures LexLess(p + a, p + b) == LexLess(a, b)
  {
    if p == [] {
      assert p + a == a && p + b == b;
    } else {
      assert (p + a)[1..] == p[1..] + a;
      assert (p + b)[1..] == p[1..] + b;
      LexLessCommonPrefix(p[1..], a, b);
    }
  }

  /** With heads of equal length, the order is decided by the heads unless they are equal. */
  lemma {:induction false} LexLessEqualLengthHeads(a: string, x: string, b: string, y: string)
    requires |a| == |b|
    ensures LexLess(a + x, b + y) == (LexLess(a, b) || (a == b && LexLess(x, y)))
  {
    if a == [] {
      assert a + x == x && b + y == y && a == b;
    } else {
      assert (a + x)[1..] == a[1..] + x;
      assert (b + y)[1..] == b[1..] + y;
      LexLessEqualLengthHeads(a[1..], x, b[1..], y);
      if a[0] == b[0] && a[1..] == b[1..] {
        assert a == [a[0]] + a[1..] && b == [b[0]] + b[1..];
      }
    }
  }

  lemma {:induction false} LexLessIrreflexive(a: string)
    ensures !LexLess(a, a)
  {
    if a != [] {
      LexLessIrreflexive(a[1..]);
    }
  }
}
