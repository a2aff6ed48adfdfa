/**
  Channel Access values as the two summary-statistics helpers see them
  (python-ca-examples/data_logger.py and advanced_ca_client.py): a value is
  either a number, for which `isinstance(v, (int, float))` holds, or
  anything else (a string, an array, `None`). Python's `bool` is a subclass
  of `int`, so a boolean value counts as a number here too.

  Both classes also turn the callback's timestamp into a `datetime`; the
  model receives the outcome of that conversion.
 */
module ChannelValues {
  import opened Numeric

  datatype Value = Num(v: real) | NonNum

  /**
    A callback timestamp that `datetime.fromtimestamp` accepted: its seconds,
    and the ISO-8601 text of the `datetime` it gave.
   */
  datatype Stamp = Stamp(seconds: real, isoTime: string)

  /** The comprehension `[entry['value'] for entry in buffer]`: each entry's value, in order. */
  function ValuesOf<E>(entries: seq<E>, value: E -> Value): (vs: seq<Value>)
    ensures |vs| == |entries| && forall i :: 0 <= i < |entries| ==> vs[i] == value(entries[i])
  {
    seq(|entries|, i requires 0 <= i < |entries| => value(entries[i]))
  }

  /** The list comprehension `[v for v in values if isinstance(v, (int, float))]`, in order. */
  function Numbers(vs: seq<Value>): (r: seq<real>)
    ensures |r| <= |vs|
    ensures forall x :: x in r <==> Num(x) in vs
    decreases |vs|
  {
    if |vs| == 0 then []
    else
      var init := Numbers(vs[..|vs| - 1]);
      assert vs == vs[..|vs| - 1] + [vs[|vs| - 1]];
      match vs[|vs| - 1]
      case Num(x) => init + [x]
      case NonNum => init
  }

  /** Filtering distributes over concatenation. */
  lemma {:induction false} NumbersAppend(vs: seq<Value>, ws: seq<Value>)
    ensures Numbers(vs + ws) == Numbers(vs) + Numbers(ws)
    decreases |ws|
  {
    if |ws| == 0 {
      assert vs + ws == vs;
    } else {
      var w := ws[..|ws| - 1];
      assert (vs + ws)[..|vs + ws| - 1] == vs + w;
      assert (vs + ws)[|vs + ws| - 1] == ws[|ws| - 1];
      NumbersAppend(vs, w);
    }
  }

  /** The numbers of a single value. */
  lemma NumbersOfOne(v: Value)
    ensures Numbers([v]) == (if v.Num? then [v.v] else [])
  {
    assert [v][..0] == [];
  }

  /** There are no numbers exactly when no value is numeric. */
  lemma NumbersEmpty(vs: seq<Value>)
    ensures |Numbers(vs)| == 0 <==> forall i :: 0 <= i < |vs| ==> vs[i] == NonNum
  {
    if |Numbers(vs)| != 0 {
      var x := Numbers(vs)[0];
      assert x in Numbers(vs);
    }
    if i :| 0 <= i < |vs| && vs[i].Num? {
      assert vs[i] in vs;
    }
  }

  /** The first number is the value of the first numeric entry. */
  lemma {:induction false} FirstNumber(vs: seq<Value>, k: nat)
    requires k < |vs| && vs[k].Num?
    requires forall j :: 0 <= j < k ==> vs[j] == NonNum
    ensures |Numbers(vs)| > 0 && Numbers(vs)[0] == vs[k].v
  {
    var pre, post := vs[..k], vs[k + 1..];
    assert vs == pre + [vs[k]] + post;
    NumbersAppend(pre + [vs[k]], post);
    NumbersAppend(pre, [vs[k]]);
    NumbersOfOne(vs[k]);
    NumbersEmpty(pre);
  }

  /** The last number is the value of the last numeric entry. */
  lemma {:induction false} LastNumber(vs: seq<Value>, k: nat)
    requires k < |vs| && vs[k].Num?
    requires forall j :: k < j < |vs| ==> vs[j] == NonNum
    ensures |Numbers(vs)| > 0 && Numbers(vs)[|Numbers(vs)| - 1] == vs[k].v
  {
    var pre, post := vs[..k], vs[k + 1..];
    assert vs == pre + [vs[k]] + post;
    NumbersAppend(pre + [vs[k]], post);
    NumbersAppend(pre, [vs[k]]);
    NumbersOfOne(vs[k]);
    NumbersEmpty(post);
  }
}
