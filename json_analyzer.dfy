/** `mcp-json-analyzer`: applies one of five statistics to every list of an
    ordered JSON object and returns the results under the same keys, or the
    first error met. The object is a sequence of (key, value) pairs in
    iteration order. */
module JsonAnalyzer {
  import Wrappers
  import Statistics

  /** The five entries of the `valid_ops` table. */
  datatype Operation = Sum | Mean | Median | Min | Max

  /** One element of a list in `data`, as `float()` sees it: a number it
      converts (ints, floats, booleans, numeric strings) or a value it
      rejects, with the text of the exception it raises. */
  datatype Item = Number(value: real) | NotNumber(reason: string)

  /** A value of `data`: a JSON array, or anything else. */
  datatype Value = List(items: seq<Item>) | NotList

  /** The tool's reply: `{"status": "success", "result": ...}` with the
      results in key order, or `{"error": ...}`. */
  datatype Reply = Success(result: seq<(string, real)>) | Error(message: string)

  const SupportedOperations: set<string> := {"sum", "mean", "median", "min", "max"}

  function OperationName(op: Operation): string
  {
    match op
    case Sum => "sum"
    case Mean => "mean"
    case Median => "median"
    case Min => "min"
    case Max => "max"
  }

  /** `valid_ops[operation]`: the statistic a name selects, if any. */
  function LookupOperation(name: string): (r: Wrappers.Option<Operation>)
    ensures r.Some? <==> name in SupportedOperations
    ensures r.Some? ==> OperationName(r.value) == name
  {
    if name == "sum" then Wrappers.Some(Sum)
    else if name == "mean" then Wrappers.Some(Mean)
    else if name == "median" then Wrappers.Some(Median)
    else if name == "min" then Wrappers.Some(Min)
    else if name == "max" then Wrappers.Some(Max)
    else Wrappers.None
  }

  /** Every operation is found again under its own name. */
  lemma LookupOperationName(op: Operation)
    ensures LookupOperation(OperationName(op)) == Wrappers.Some(op)
  {
  }

  /** `valid_ops[operation](numbers)`: the statistic applied to a non-empty
      list of numbers. Every statistic but the sum lies between the list's
      minimum and maximum. */
  function Apply(op: Operation, numbers: seq<real>): (r: real)
    requires numbers != []
    ensures op != Sum ==> Statistics.Min(numbers) <= r <= Statistics.Max(numbers)
  {
    match op
    case Sum => Statistics.Sum(numbers)
    case Mean => Statistics.MeanBounds(numbers); Statistics.Mean(numbers)
    case Median => Statistics.MedianBounds(numbers); Statistics.Median(numbers)
    case Min => Statistics.Min(numbers)
    case Max => Statistics.Max(numbers)
  }

  /** Reordering a list never changes any of the five statistics. */
  lemma ApplyPermutation(op: Operation, xs: seq<real>, ys: seq<real>)
    requires xs != [] && multiset(xs) == multiset(ys)
    ensures ys != [] && Apply(op, xs) == Apply(op, ys)
  {
    Statistics.MinMaxPermutation(xs, ys);
    Statistics.MedianPermutation(xs, ys);
    Statistics.MeanPermutation(xs, ys);
    Statistics.SumPermutation(xs, ys);
  }

  function UnsupportedMessage(operation: string): string
  {
    "Unsupported operation: " + operation
  }

  function NotListMessage(key: string): string
  {
    "Value for '" + key + "' must be a list"
  }

  function EmptyListMessage(key: string): string
  {
    "No numbers provided for '" + key + "'"
  }

  /** The generic message of the `except` clause around the whole body. */
  function ConversionMessage(reason: string): string
  {
    "Error analyzing data: " + reason
  }

  /** `[float(n) for n in values]`: the numbers, in order, when every item
      converts; otherwise the exception of the first item that does not. */
  function ToNumbers(items: seq<Item>): (r: Wrappers.Result<seq<real>, string>)
    ensures r.Success? <==> forall i :: 0 <= i < |items| ==> items[i].Number?
    ensures r.Success? ==> |r.value| == |items| && forall i :: 0 <= i < |items| ==> r.value[i] == items[i].value
    ensures r.Failure? ==> exists i :: 0 <= i < |items| && items[i] == NotNumber(r.error) && forall j :: 0 <= j < i ==> items[j].Number?
  {
    if items == [] then Wrappers.Success([])
    else
      assert forall i :: 1 <= i < |items| ==> items[i] == items[1..][i - 1];
      match items[0]
      case NotNumber(reason) => Wrappers.Failure(reason)
      case Number(x) =>
        match ToNumbers(items[1..])
        case Failure(e) =>
          var r := Wrappers.Failure(e);
          assert exists i :: 0 <= i < |items[1..]| && items[1..][i] == NotNumber(e) && forall j :: 0 <= j < i ==> items[1..][j].Number?;
          var k :| 0 <= k < |items[1..]| && items[1..][k] == NotNumber(e) && forall j :: 0 <= j < k ==> items[1..][j].Number?;
          assert items[k + 1] == NotNumber(e) && forall j :: 0 <= j < k + 1 ==> items[j].Number?;
          r
        case Success(rest) => Wrappers.Success([x] + rest)
  }

  /** A value the analyzer can summarise: a non-empty list of convertible items. */
  predicate IsNumericList(value: Value)
  {
    value.List? && value.items != [] && forall i :: 0 <= i < |value.items| ==> value.items[i].Number?
  }

  /** The numbers of a summarisable value. */
  function Numbers(value: Value): (numbers: seq<real>)
    requires IsNumericList(value)
    ensures numbers != []
  {
    ToNumbers(value.items).value
  }

  /** The body of one loop iteration: the statistic for `key`, or the error
      that ends the loop. It succeeds exactly when the value is a non-empty
      list of convertible items, and then gives the statistic of its numbers. */
  function Summarize(key: string, value: Value, op: Operation): (r: Wrappers.Result<real, string>)
    ensures r.Success? <==> IsNumericList(value)
    ensures IsNumericList(value) ==> r.value == Apply(op, Numbers(value))
  {
    match value
    case NotList => Wrappers.Failure(NotListMessage(key))
    case List(items) =>
      match ToNumbers(items)
      case Failure(reason) => Wrappers.Failure(ConversionMessage(reason))
      case Success(numbers) =>
        if numbers == [] then Wrappers.Failure(EmptyListMessage(key))
        else Wrappers.Success(Apply(op, numbers))
  }

  /** `done` placed in front of the results of a reply; an error stays as is. */
  function Prepend(done: seq<(string, real)>, rest: Reply): Reply
  {
    match rest
    case Success(r) => Success(done + r)
    case Error(m) => Error(m)
  }

  /** The loop over `data.items()` as a recursion on the remaining entries.
      A success has one result per entry, under the entry's key, in order. */
  function Entries(data: seq<(string, Value)>, op: Operation): (r: Reply)
    ensures r.Success? ==> |r.result| == |data| && forall i :: 0 <= i < |data| ==> r.result[i].0 == data[i].0
  {
    if data == [] then Success([])
    else
      match Summarize(data[0].0, data[0].1, op)
      case Failure(m) => Error(m)
      case Success(x) =>
        var rest := Entries(data[1..], op);
        assert forall i :: 1 <= i < |data| ==> data[i] == data[1..][i - 1];
        Prepend([(data[0].0, x)], rest)
  }

  /** One step of the loop: the first entry's outcome, then the rest. */
  lemma EntriesStep(data: seq<(string, Value)>, op: Operation)
    requires data != []
    ensures Summarize(data[0].0, data[0].1, op).Failure? ==>
      Entries(data, op) == Error(Summarize(data[0].0, data[0].1, op).error)
    ensures Summarize(data[0].0, data[0].1, op).Success? ==>
      Entries(data, op) == Prepend([(data[0].0, Summarize(data[0].0, data[0].1, op).value)], Entries(data[1..], op))
  {
  }

  /** Results placed in front in two steps, or in one. */
  lemma PrependTwice(done: seq<(string, real)>, more: seq<(string, real)>, rest: Reply)
    ensures Prepend(done, Prepend(more, rest)) == Prepend(done + more, rest)
  {
    if rest.Success? {
      assert done + (more + rest.result) == (done + more) + rest.result;
    }
  }

  /** What `mcp_json_analyzer(data, operation)` returns. An operation outside
      the table is refused before any entry of `data` is looked at. */
  function Analyze(data: seq<(string, Value)>, operation: string): (r: Reply)
    ensures operation !in SupportedOperations ==> r == Error(UnsupportedMessage(operation))
  {
    match LookupOperation(operation)
    case None => Error(UnsupportedMessage(operation))
    case Some(op) => Entries(data, op)
  }

  /** The tool body: the operation check, then the loop that fills `result`
      key by key and returns early on the first bad entry. */
  method RunJsonAnalyzer(data: seq<(string, Value)>, operation: string) returns (reply: Reply)
    ensures reply == Analyze(data, operation)
  {
    var op := LookupOperation(operation);
    if op.None? {
      return Error(UnsupportedMessage(operation));
    }
    var result: seq<(string, real)> := [];
    var i := 0;
    while i < |data|
      invariant 0 <= i <= |data|
      invariant Entries(data, op.value) == Prepend(result, Entries(data[i..], op.value))
    {
      EntriesStep(data[i..], op.value);
      assert data[i..][0] == data[i] && data[i..][1..] == data[i + 1..];
      var (key, values) := data[i];
      if values.NotList? {
        return Error(NotListMessage(key));
      }
      var numbers := ToNumbers(values.items);
      if numbers.Failure? {
        return Error(ConversionMessage(numbers.error));
      }
      if numbers.value == [] {
        return Error(EmptyListMessage(key));
      }
      var x := Apply(op.value, numbers.value);
      PrependTwice(result, [(key, x)], Entries(data[i + 1..], op.value));
      result := result + [(key, x)];
      i := i + 1;
    }
    assert data[i..] == [];
    return Success(result);
  }

  /** The analyzer succeeds exactly when the operation is supported and every
      value is a non-empty list of numbers; the result then has the keys of
      `data` in the same order, each with the statistic of its own numbers. */
  lemma AnalyzeSucceeds(data: seq<(string, Value)>, operation: string)
    ensures Analyze(data, operation).Success? <==>
      operation in SupportedOperations && forall i :: 0 <= i < |data| ==> IsNumericList(data[i].1)
    ensures Analyze(data, operation).Success? ==>
      var op, r := LookupOperation(operation).value, Analyze(data, operation).result;
      && |r| == |data|
      && (forall i :: 0 <= i < |data| ==> r[i].0 == data[i].0)
      && (forall i :: 0 <= i < |data| ==> r[i].1 == Apply(op, Numbers(data[i].1)))
  {
    if operation in SupportedOperations {
      EntriesSucceed(data, LookupOperation(operation).value);
    }
  }

  /** The loop runs to the end exactly when every value is a non-empty list of
      numbers, and then each key gets the statistic of its own numbers. */
  lemma {:induction false} EntriesSucceed(data: seq<(string, Value)>, op: Operation)
    ensures Entries(data, op).Success? <==> forall i :: 0 <= i < |data| ==> IsNumericList(data[i].1)
    ensures Entries(data, op).Success? ==>
      forall i :: 0 <= i < |data| ==> Entries(data, op).result[i].1 == Apply(op, Numbers(data[i].1))
  {
    if data != [] {
      EntriesSucceed(data[1..], op);
      EntriesStep(data, op);
      NumericTail(data);
      var head := Summarize(data[0].0, data[0].1, op);
      var rest := Entries(data[1..], op);
      if head.Success? && rest.Success? {
        var r := Entries(data, op).result;
        assert r == [(data[0].0, head.value)] + rest.result;
        PointwiseCons((e: (string, Value), y: (string, real)) =>
          IsNumericList(e.1) && y.1 == Apply(op, Numbers(e.1)), data, r);
      }
    }
  }

  /** Every value is numeric exactly when the first one and every later one is. */
  lemma NumericTail(data: seq<(string, Value)>)
    requires data != []
    ensures (forall i :: 0 <= i < |data| ==> IsNumericList(data[i].1)) <==>
      IsNumericList(data[0].1) && forall i :: 0 <= i < |data[1..]| ==> IsNumericList(data[1..][i].1)
  {
    assert forall i :: 1 <= i < |data| ==> data[i] == data[1..][i - 1];
  }

  /** A relation that holds between the heads and between the tails of two
      lists of equal length holds at every index. */
  lemma PointwiseCons<A, B>(related: (A, B) -> bool, xs: seq<A>, ys: seq<B>)
    requires |xs| == |ys| > 0 && related(xs[0], ys[0])
    requires forall i :: 0 <= i < |xs| - 1 ==> related(xs[1..][i], ys[1..][i])
    ensures forall i :: 0 <= i < |xs| ==> related(xs[i], ys[i])
  {
    forall i | 1 <= i < |xs|
      ensures related(xs[i], ys[i])
    {
      assert xs[i] == xs[1..][i - 1] && ys[i] == ys[1..][i - 1];
    }
  }

  /** Entries are examined in order and the first one that cannot be
      summarised decides the reply: its error, whatever follows it, and none
      of the results computed for the keys before it. */
  lemma {:induction false} EntriesFirstError(data: seq<(string, Value)>, op: Operation, k: nat)
    requires k < |data|
    requires forall j :: 0 <= j < k ==> IsNumericList(data[j].1)
    requires !IsNumericList(data[k].1)
    ensures Summarize(data[k].0, data[k].1, op).Failure?
    ensures Entries(data, op) == Error(Summarize(data[k].0, data[k].1, op).error)
  {
    if k > 0 {
      assert forall j :: 0 <= j < k - 1 ==> data[1..][j] == data[j + 1];
      EntriesFirstError(data[1..], op, k - 1);
    }
  }

  /** The three per-key errors, for the first entry that is not a non-empty
      list of numbers: not a list; an item `float()` rejects (the first such
      item's exception text, without the key); an empty list. */
  lemma AnalyzeFirstError(data: seq<(string, Value)>, operation: string, k: nat)
    requires operation in SupportedOperations
    requires k < |data|
    requires forall j :: 0 <= j < k ==> IsNumericList(data[j].1)
    ensures data[k].1.NotList? ==> Analyze(data, operation) == Error(NotListMessage(data[k].0))
    ensures data[k].1 == List([]) ==> Analyze(data, operation) == Error(EmptyListMessage(data[k].0))
    ensures data[k].1.List? && ToNumbers(data[k].1.items).Failure? ==>
      Analyze(data, operation) == Error(ConversionMessage(ToNumbers(data[k].1.items).error))
  {
    var op := LookupOperation(operation).value;
    if !IsNumericList(data[k].1) {
      EntriesFirstError(data, op, k);
    }
  }

  /** An empty object is a success with an empty result, for any supported
      operation. */
  lemma AnalyzeEmpty(operation: string)
    requires operation in SupportedOperations
    ensures Analyze([], operation) == Success([])
  {
  }
}
