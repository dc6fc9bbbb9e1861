/** Reading an input line by line, where a line that cannot be read makes the program panic. */
module Lines {
  import opened Wrappers
  import opened Seqs

  /** The value `parse` reads from every line, or `None` if it fails on some line: the program
      panics there. */
  function ParseEach<T>(lines: seq<string>, parse: string -> Option<T>): (r: Option<seq<T>>)
    ensures r.Some? ==> |r.value| == |lines|
  {
    if lines == [] then Some([])
    else
      match (ParseEach(lines[..|lines| - 1], parse), parse(lines[|lines| - 1]))
      case (Some(values), Some(value)) => Some(values + [value])
      case _ => None
  }

  /** Once a line fails, so do all longer inputs. */
  lemma {:induction false} EachStopsAtPanic<T>(lines: seq<string>, parse: string -> Option<T>, k: nat)
    requires 0 < k <= |lines| && ParseEach(lines[..k], parse) == None
    ensures ParseEach(lines, parse) == None
    decreases |lines| - k
  {
    if k < |lines| {
      PrefixStep(lines, k);
      EachStopsAtPanic(lines, parse, k + 1);
    } else {
      PrefixWhole(lines);
    }
  }

  /** One more line: its value is appended, or the input fails. */
  lemma {:induction false} EachStep<T>(lines: seq<string>, parse: string -> Option<T>, i: nat, values: seq<T>)
    requires i < |lines| && ParseEach(lines[..i], parse) == Some(values)
    ensures parse(lines[i]).None? ==> ParseEach(lines, parse) == None
    ensures parse(lines[i]).Some? ==> ParseEach(lines[..i + 1], parse) == Some(values + [parse(lines[i]).value])
  {
    PrefixStep(lines, i);
    if parse(lines[i]).None? {
      EachStopsAtPanic(lines, parse, i + 1);
    }
  }

  /** An input that parses has one value per line, the one `parse` reads from it. */
  lemma {:induction false} EachLineByLine<T>(lines: seq<string>, parse: string -> Option<T>)
    requires ParseEach(lines, parse).Some?
    ensures forall k :: 0 <= k < |lines| ==> parse(lines[k]) == Some(ParseEach(lines, parse).value[k])
    decreases |lines|
  {
    if lines != [] {
      var n := |lines| - 1;
      PrefixStep(lines, n);
      PrefixWhole(lines);
      EachLineByLine(lines[..n], parse);
    }
  }

  /** Lines that each parse give exactly their values: the converse of `EachLineByLine`. */
  lemma {:induction false} EachFromLines<T>(lines: seq<string>, parse: string -> Option<T>, values: seq<T>)
    requires |lines| == |values|
    requires forall k :: 0 <= k < |lines| ==> parse(lines[k]) == Some(values[k])
    ensures ParseEach(lines, parse) == Some(values)
    decreases |lines|
  {
    if lines != [] {
      var n := |lines| - 1;
      assert forall k :: 0 <= k < n ==> lines[..n][k] == lines[k] && values[..n][k] == values[k];
      EachFromLines(lines[..n], parse, values[..n]);
      assert values == values[..n] + [values[n]];
    }
  }

  /** Lines that each parse make an input that parses. */
  lemma {:induction false} EachAccepts<T>(lines: seq<string>, parse: string -> Option<T>)
    requires forall k :: 0 <= k < |lines| ==> parse(lines[k]).Some?
    ensures ParseEach(lines, parse).Some?
    decreases |lines|
  {
    if lines != [] {
      var n := |lines| - 1;
      assert forall k :: 0 <= k < n ==> lines[..n][k] == lines[k];
      EachAccepts(lines[..n], parse);
    }
  }
}
