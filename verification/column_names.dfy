/**
  The column names KeyboardAnalyzer builds for the feature positions of a word.

  Feature k of a word (k = 0, 1, ..., 2L-2 for a word of L letters) is a hold
  duration when k is even and a latency when k is odd; it is stored in the
  columns `d<k/2>_avg`/`d<k/2>_var` or `l<k/2>_avg`/`l<k/2>_var`, the number
  written in decimal as String.valueOf does.
 */
module ColumnNames {

  /** The decimal digit character for d. */
  function Digit(d: nat): (ch: char)
    requires d < 10
    ensures '0' <= ch <= '9'
    ensures ch as int - '0' as int == d
  {
    ('0' as int + d) as char
  }

  /** String.valueOf(n) for a non-negative int: its decimal digits, most significant first. */
  function Decimal(n: nat): (s: string)
    ensures 1 <= |s|
    ensures n < 10 <==> |s| == 1
    ensures s[|s| - 1] == Digit(n % 10)
    decreases n
  {
    if n < 10 then [Digit(n)] else Decimal(n / 10) + [Digit(n % 10)]
  }

  /** Different numbers have different decimal strings. */
  lemma {:induction false} DecimalInjective(a: nat, b: nat)
    requires Decimal(a) == Decimal(b)
    ensures a == b
  {
    var s := Decimal(a);
    if 10 <= a {
      assert 10 <= b;
      assert Decimal(a / 10) == s[..|s| - 1] == Decimal(b / 10);
      DecimalInjective(a / 10, b / 10);
    }
  }

  /** Whether a feature is a key's hold duration ("d" columns) or the latency before the next key ("l" columns). */
  datatype Kind = Hold | Latency

  /** Whether a column holds a running average ("_avg") or a running variance ("_var"). */
  datatype Stat = Avg | Var

  /** A REAL column of the profiles table: Column(Hold, 3, Var) is the column named d3_var. */
  datatype Column = Column(kind: Kind, index: nat, stat: Stat)

  /** The column's name, built as KeyboardAnalyzer builds it: "d" or "l", the index in decimal, "_avg" or "_var". */
  function Name(c: Column): (s: string)
    ensures 6 <= |s|
    ensures s[0] == 'd' <==> c.kind == Hold
    ensures s[|s| - 3] == 'a' <==> c.stat == Avg
  {
    (if c.kind == Hold then "d" else "l") + Decimal(c.index) + (if c.stat == Avg then "_avg" else "_var")
  }

  /** Different columns have different names. */
  lemma NameInjective(a: Column, b: Column)
    requires Name(a) == Name(b)
    ensures a == b
  {
    var s, t := Name(a), Name(b);
    assert s[0] == t[0] && s[|s| - 3] == t[|t| - 3];
    assert Decimal(a.index) == s[1..|s| - 4] == t[1..|t| - 4] == Decimal(b.index);
    DecimalInjective(a.index, b.index);
  }

  /** Feature k of a word is a hold when k is even and a latency when k is odd. */
  function KindOf(k: nat): Kind
  {
    if k % 2 == 0 then Hold else Latency
  }

  /** The column holding the running average of feature k. */
  function AvgColumn(k: nat): (c: Column)
    ensures c.stat == Avg && c.index == k / 2 && c.kind == KindOf(k)
  {
    Column(KindOf(k), k / 2, Avg)
  }

  /** The column holding the running variance of feature k. */
  function VarColumn(k: nat): (c: Column)
    ensures c.stat == Var && c.index == k / 2 && c.kind == KindOf(k)
  {
    Column(KindOf(k), k / 2, Var)
  }

  /**
    The naming is injective: every feature has its own pair of columns, and no
    average column is a variance column.
   */
  lemma ColumnsDistinct(j: nat, k: nat)
    ensures AvgColumn(j) == AvgColumn(k) <==> j == k
    ensures VarColumn(j) == VarColumn(k) <==> j == k
    ensures AvgColumn(j) != VarColumn(k)
  {
    if KindOf(j) == KindOf(k) && j / 2 == k / 2 {
      assert j % 2 == k % 2;
    }
  }

  /** Hold i of a word is feature 2i, stored in d<i>_avg and d<i>_var. */
  lemma HoldColumnName(i: nat)
    ensures AvgColumn(2 * i) == Column(Hold, i, Avg) && VarColumn(2 * i) == Column(Hold, i, Var)
    ensures Name(AvgColumn(2 * i)) == "d" + Decimal(i) + "_avg"
    ensures Name(VarColumn(2 * i)) == "d" + Decimal(i) + "_var"
  {
  }

  /** The latency after letter i is feature 2i + 1, stored in l<i>_avg and l<i>_var. */
  lemma LatencyColumnName(i: nat)
    ensures AvgColumn(2 * i + 1) == Column(Latency, i, Avg) && VarColumn(2 * i + 1) == Column(Latency, i, Var)
    ensures Name(AvgColumn(2 * i + 1)) == "l" + Decimal(i) + "_avg"
    ensures Name(VarColumn(2 * i + 1)) == "l" + Decimal(i) + "_var"
  {
  }

  /** Hold 14, the last hold of a fifteen-letter word, is stored in d14_avg. */
  lemma FourteenthHoldColumn()
    ensures Name(AvgColumn(28)) == "d14_avg"
  {
    HoldColumnName(14);
    assert Decimal(14) == "14";
  }

  /** The set of columns the first n features of a word are stored in. */
  function FeatureColumns(n: nat): set<Column>
  {
    if n == 0 then {} else FeatureColumns(n - 1) + {AvgColumn(n - 1), VarColumn(n - 1)}
  }

  /** A column is a feature column of the first n features exactly when it belongs to one of them. */
  lemma {:induction false} FeatureColumnsMembers(n: nat, k: nat)
    ensures AvgColumn(k) in FeatureColumns(n) <==> k < n
    ensures VarColumn(k) in FeatureColumns(n) <==> k < n
  {
    if n > 0 {
      FeatureColumnsMembers(n - 1, k);
      ColumnsDistinct(k, n - 1);
      ColumnsDistinct(n - 1, k);
    }
  }

  /** The columns of fewer features are among those of more. */
  lemma {:induction false} FeatureColumnsGrow(m: nat, n: nat)
    requires m <= n
    ensures FeatureColumns(m) <= FeatureColumns(n)
  {
    if m < n {
      FeatureColumnsGrow(m, n - 1);
    }
  }

  /**
    The loops of updateWord and insertWord run i = 0, 2, 4, ... and write
    feature i/2 to the "d" columns of index i/4 when i/2 is even and to the
    "l" columns of index i/4 when it is odd: exactly feature i/2's columns.
   */
  lemma StepColumns(i: nat)
    requires i % 2 == 0
    ensures (i / 2) % 2 == 0 ==> AvgColumn(i / 2) == Column(Hold, i / 4, Avg) && VarColumn(i / 2) == Column(Hold, i / 4, Var)
    ensures (i / 2) % 2 == 1 ==> AvgColumn(i / 2) == Column(Latency, i / 4, Avg) && VarColumn(i / 2) == Column(Latency, i / 4, Var)
  {
    var h := i / 4;
    if i % 4 == 0 {
      assert i == 4 * h && i / 2 == 2 * h;
    } else {
      assert i == 4 * h + 2 && i / 2 == 2 * h + 1;
    }
  }

  /** Every feature column belongs to some feature below n. */
  lemma {:induction false} FeatureColumnIndex(n: nat, c: Column) returns (k: nat)
    requires c in FeatureColumns(n)
    ensures k < n && (c == AvgColumn(k) || c == VarColumn(k))
  {
    if c == AvgColumn(n - 1) || c == VarColumn(n - 1) {
      k := n - 1;
    } else {
      k := FeatureColumnIndex(n - 1, c);
    }
  }

  /** names lists the names of the average and variance columns of features 0..n-1, in feature order. */
  ghost predicate LaidOut(names: seq<string>, n: nat)
  {
    && |names| == 2 * n
    && forall k :: 0 <= k < n ==> names[2 * k] == Name(AvgColumn(k)) && names[2 * k + 1] == Name(VarColumn(k))
  }

  /** Such a listing names the columns of feature k exactly when k < n. */
  lemma LaidOutMembers(names: seq<string>, n: nat, k: nat)
    requires LaidOut(names, n)
    ensures Name(AvgColumn(k)) in names <==> k < n
    ensures Name(VarColumn(k)) in names <==> k < n
  {
    if k < n {
      assert names[2 * k] == Name(AvgColumn(k)) && names[2 * k + 1] == Name(VarColumn(k));
    }
    if Name(AvgColumn(k)) in names {
      var j :| 0 <= j < |names| && names[j] == Name(AvgColumn(k));
      LaidOutAt(names, n, j, AvgColumn(k));
      ColumnsDistinct(k, j / 2);
    }
    if Name(VarColumn(k)) in names {
      var j :| 0 <= j < |names| && names[j] == Name(VarColumn(k));
      LaidOutAt(names, n, j, VarColumn(k));
      ColumnsDistinct(j / 2, k);
    }
  }

  /** The column named at position j of such a listing belongs to feature j / 2. */
  lemma LaidOutAt(names: seq<string>, n: nat, j: nat, c: Column)
    requires LaidOut(names, n) && j < |names| && names[j] == Name(c)
    ensures j / 2 < n && (c == AvgColumn(j / 2) || c == VarColumn(j / 2))
  {
    var k := j / 2;
    if j % 2 == 0 {
      assert names[2 * k] == Name(AvgColumn(k));
      NameInjective(c, AvgColumn(k));
    } else {
      assert names[2 * k + 1] == Name(VarColumn(k));
      NameInjective(c, VarColumn(k));
    }
  }
}
