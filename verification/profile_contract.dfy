/**
  The table of per-word timing profiles as TimeProfileContract declares it:
  an id, the word (unique), its occurrence count, and an (avg, var) pair of
  REAL columns for hold durations d0..d13 and latencies l0..l12.
 */
module ProfileContract {
  import opened ColumnNames

  const DatabaseName: string := "time_profiles.db"
  const DatabaseVersion: int := 1
  const TableName: string := "profiles"
  const IdColumn: string := "_id"
  const WordColumn: string := "word"
  const CountColumn: string := "count"

  /** The REAL columns of SQL_CREATE_ENTRIES in declaration order, written one feature-pair group per line. */
  const TimingColumns: seq<string> :=
    ["d0_avg", "d0_var", "l0_avg", "l0_var"] +
    ["d1_avg", "d1_var", "l1_avg", "l1_var"] +
    ["d2_avg", "d2_var", "l2_avg", "l2_var"] +
    ["d3_avg", "d3_var", "l3_avg", "l3_var"] +
    ["d4_avg", "d4_var", "l4_avg", "l4_var"] +
    ["d5_avg", "d5_var", "l5_avg", "l5_var"] +
    ["d6_avg", "d6_var", "l6_avg", "l6_var"] +
    ["d7_avg", "d7_var", "l7_avg", "l7_var"] +
    ["d8_avg", "d8_var", "l8_avg", "l8_var"] +
    ["d9_avg", "d9_var", "l9_avg", "l9_var"] +
    ["d10_avg", "d10_var", "l10_avg", "l10_var"] +
    ["d11_avg", "d11_var", "l11_avg", "l11_var"] +
    ["d12_avg", "d12_var", "l12_avg", "l12_var"] +
    ["d13_avg", "d13_var"]

  /** Every column the table declares. */
  const DeclaredColumns: set<string> := {IdColumn, WordColumn, CountColumn} + set c | c in TimingColumns

  /** The longest word whose features all have declared columns. */
  const MaxWordLength: nat := 14

  /** Number of features (holds and latencies) of a word of the given length. */
  function FeatureCount(length: nat): nat
  {
    if length == 0 then 0 else 2 * length - 1
  }

  // The declared REAL columns are exactly the columns the d/l naming gives to
  // features 0..26. The facts are checked in small batches of literal names.

  /**
    Features 0 and 1 are named as declared. This lemma and the thirteen after it
    are one statement, NamedColumns, cut into pairs of features only so that
    each proof over literal strings stays small.
   */
  lemma NamedColumns0To1(k: nat)
    requires k < 2
    ensures TimingColumns[2 * k] == Name(AvgColumn(k)) && TimingColumns[2 * k + 1] == Name(VarColumn(k))
  {
    if k == 0 { assert TimingColumns[0] == Name(AvgColumn(0)) && TimingColumns[1] == Name(VarColumn(0)); }
    if k == 1 { assert TimingColumns[2] == Name(AvgColumn(1)) && TimingColumns[3] == Name(VarColumn(1)); }
  }

  lemma NamedColumns2To3(k: nat)
    requires 2 <= k < 4
    ensures TimingColumns[2 * k] == Name(AvgColumn(k)) && TimingColumns[2 * k + 1] == Name(VarColumn(k))
  {
    if k == 2 { assert TimingColumns[4] == Name(AvgColumn(2)) && TimingColumns[5] == Name(VarColumn(2)); }
    if k == 3 { assert TimingColumns[6] == Name(AvgColumn(3)) && TimingColumns[7] == Name(VarColumn(3)); }
  }

  lemma NamedColumns4To5(k: nat)
    requires 4 <= k < 6
    ensures TimingColumns[2 * k] == Name(AvgColumn(k)) && TimingColumns[2 * k + 1] == Name(VarColumn(k))
  {
    if k == 4 { assert TimingColumns[8] == Name(AvgColumn(4)) && TimingColumns[9] == Name(VarColumn(4)); }
    if k == 5 { assert TimingColumns[10] == Name(AvgColumn(5)) && TimingColumns[11] == Name(VarColumn(5)); }
  }

  lemma NamedColumns6To7(k: nat)
    requires 6 <= k < 8
    ensures TimingColumns[2 * k] == Name(AvgColumn(k)) && TimingColumns[2 * k + 1] == Name(VarColumn(k))
  {
    if k == 6 { assert TimingColumns[12] == Name(AvgColumn(6)) && TimingColumns[13] == Name(VarColumn(6)); }
    if k == 7 { assert TimingColumns[14] == Name(AvgColumn(7)) && TimingColumns[15] == Name(VarColumn(7)); }
  }

  lemma NamedColumns8To9(k: nat)
    requires 8 <= k < 10
    ensures TimingColumns[2 * k] == Name(AvgColumn(k)) && TimingColumns[2 * k + 1] == Name(VarColumn(k))
  {
    if k == 8 { assert TimingColumns[16] == Name(AvgColumn(8)) && TimingColumns[17] == Name(VarColumn(8)); }
    if k == 9 { assert TimingColumns[18] == Name(AvgColumn(9)) && TimingColumns[19] == Name(VarColumn(9)); }
  }

  lemma NamedColumns10To11(k: nat)
    requires 10 <= k < 12
    ensures TimingColumns[2 * k] == Name(AvgColumn(k)) && TimingColumns[2 * k + 1] == Name(VarColumn(k))
  {
    if k == 10 { assert TimingColumns[20] == Name(AvgColumn(10)) && TimingColumns[21] == Name(VarColumn(10)); }
    if k == 11 { assert TimingColumns[22] == Name(AvgColumn(11)) && TimingColumns[23] == Name(VarColumn(11)); }
  }

  lemma NamedColumns12To13(k: nat)
    requires 12 <= k < 14
    ensures TimingColumns[2 * k] == Name(AvgColumn(k)) && TimingColumns[2 * k + 1] == Name(VarColumn(k))
  {
    if k == 12 { assert TimingColumns[24] == Name(AvgColumn(12)) && TimingColumns[25] == Name(VarColumn(12)); }
    if k == 13 { assert TimingColumns[26] == Name(AvgColumn(13)) && TimingColumns[27] == Name(VarColumn(13)); }
  }

  lemma NamedColumns14To15(k: nat)
    requires 14 <= k < 16
    ensures TimingColumns[2 * k] == Name(AvgColumn(k)) && TimingColumns[2 * k + 1] == Name(VarColumn(k))
  {
    if k == 14 { assert TimingColumns[28] == Name(AvgColumn(14)) && TimingColumns[29] == Name(VarColumn(14)); }
    if k == 15 { assert TimingColumns[30] == Name(AvgColumn(15)) && TimingColumns[31] == Name(VarColumn(15)); }
  }

  lemma NamedColumns16To17(k: nat)
    requires 16 <= k < 18
    ensures TimingColumns[2 * k] == Name(AvgColumn(k)) && TimingColumns[2 * k + 1] == Name(VarColumn(k))
  {
    if k == 16 { assert TimingColumns[32] == Name(AvgColumn(16)) && TimingColumns[33] == Name(VarColumn(16)); }
    if k == 17 { assert TimingColumns[34] == Name(AvgColumn(17)) && TimingColumns[35] == Name(VarColumn(17)); }
  }

  lemma NamedColumns18To19(k: nat)
    requires 18 <= k < 20
    ensures TimingColumns[2 * k] == Name(AvgColumn(k)) && TimingColumns[2 * k + 1] == Name(VarColumn(k))
  {
    if k == 18 { assert TimingColumns[36] == Name(AvgColumn(18)) && TimingColumns[37] == Name(VarColumn(18)); }
    if k == 19 { assert TimingColumns[38] == Name(AvgColumn(19)) && TimingColumns[39] == Name(VarColumn(19)); }
  }

  lemma NamedColumns20To21(k: nat)
    requires 20 <= k < 22
    ensures TimingColumns[2 * k] == Name(AvgColumn(k)) && TimingColumns[2 * k + 1] == Name(VarColumn(k))
  {
    if k == 20 { assert TimingColumns[40] == Name(AvgColumn(20)) && TimingColumns[41] == Name(VarColumn(20)); }
    if k == 21 { assert TimingColumns[42] == Name(AvgColumn(21)) && TimingColumns[43] == Name(VarColumn(21)); }
  }

  lemma NamedColumns22To23(k: nat)
    requires 22 <= k < 24
    ensures TimingColumns[2 * k] == Name(AvgColumn(k)) && TimingColumns[2 * k + 1] == Name(VarColumn(k))
  {
    if k == 22 { assert TimingColumns[44] == Name(AvgColumn(22)) && TimingColumns[45] == Name(VarColumn(22)); }
    if k == 23 { assert TimingColumns[46] == Name(AvgColumn(23)) && TimingColumns[47] == Name(VarColumn(23)); }
  }

  lemma NamedColumns24To25(k: nat)
    requires 24 <= k < 26
    ensures TimingColumns[2 * k] == Name(AvgColumn(k)) && TimingColumns[2 * k + 1] == Name(VarColumn(k))
  {
    if k == 24 { assert TimingColumns[48] == Name(AvgColumn(24)) && TimingColumns[49] == Name(VarColumn(24)); }
    if k == 25 { assert TimingColumns[50] == Name(AvgColumn(25)) && TimingColumns[51] == Name(VarColumn(25)); }
  }

  lemma NamedColumns26(k: nat)
    requires k == 26
    ensures TimingColumns[2 * k] == Name(AvgColumn(k)) && TimingColumns[2 * k + 1] == Name(VarColumn(k))
  {
    if k == 26 { assert TimingColumns[52] == Name(AvgColumn(26)) && TimingColumns[53] == Name(VarColumn(26)); }
  }

  /** Features 0..26 (holds d0..d13, latencies l0..l12) have their columns declared. */
  lemma NamedColumns(k: nat)
    requires k < 27
    ensures TimingColumns[2 * k] == Name(AvgColumn(k)) && TimingColumns[2 * k + 1] == Name(VarColumn(k))
  {
    if k < 2 { NamedColumns0To1(k); }
    else if k < 4 { NamedColumns2To3(k); }
    else if k < 6 { NamedColumns4To5(k); }
    else if k < 8 { NamedColumns6To7(k); }
    else if k < 10 { NamedColumns8To9(k); }
    else if k < 12 { NamedColumns10To11(k); }
    else if k < 14 { NamedColumns12To13(k); }
    else if k < 16 { NamedColumns14To15(k); }
    else if k < 18 { NamedColumns16To17(k); }
    else if k < 20 { NamedColumns18To19(k); }
    else if k < 22 { NamedColumns20To21(k); }
    else if k < 24 { NamedColumns22To23(k); }
    else if k < 26 { NamedColumns24To25(k); }
    else { NamedColumns26(k); }
  }

  /** The declared REAL columns list features 0..26 in feature order. */
  lemma TimingColumnsLaidOut()
    ensures LaidOut(TimingColumns, 27)
  {
    forall k | 0 <= k < 27
      ensures TimingColumns[2 * k] == Name(AvgColumn(k)) && TimingColumns[2 * k + 1] == Name(VarColumn(k))
    {
      NamedColumns(k);
    }
  }

  /** A feature's average and variance columns are declared exactly for features 0..26. */
  lemma DeclaredFeatureColumn(k: nat)
    ensures Name(AvgColumn(k)) in DeclaredColumns <==> k < 27
    ensures Name(VarColumn(k)) in DeclaredColumns <==> k < 27
  {
    TimingColumnsLaidOut();
    LaidOutMembers(TimingColumns, 27, k);
    var a, v := Name(AvgColumn(k)), Name(VarColumn(k));
    assert a in DeclaredColumns <==> a in TimingColumns;
    assert v in DeclaredColumns <==> v in TimingColumns;
  }

  /** Hold-duration columns d<i>_avg/d<i>_var are declared exactly for i = 0..13. */
  lemma HoldColumnsDeclared(i: nat)
    ensures Name(Column(Hold, i, Avg)) in DeclaredColumns <==> i <= 13
    ensures Name(Column(Hold, i, Var)) in DeclaredColumns <==> i <= 13
  {
    HoldColumnName(i);
    DeclaredFeatureColumn(2 * i);
  }

  /** Latency columns l<i>_avg/l<i>_var are declared exactly for i = 0..12: there is no l13. */
  lemma LatencyColumnsDeclared(i: nat)
    ensures Name(Column(Latency, i, Avg)) in DeclaredColumns <==> i <= 12
    ensures Name(Column(Latency, i, Var)) in DeclaredColumns <==> i <= 12
  {
    LatencyColumnName(i);
    DeclaredFeatureColumn(2 * i + 1);
  }

  /** The names of the columns in a set are all declared. */
  ghost predicate AllDeclared(cols: set<Column>)
  {
    forall c :: c in cols ==> Name(c) in DeclaredColumns
  }

  /**
    Every column the naming gives to a word of the given length is declared
    exactly when the word has at most MaxWordLength letters.
   */
  lemma WordFitsSchema(length: nat)
    requires 1 <= length
    ensures AllDeclared(FeatureColumns(FeatureCount(length))) <==> length <= MaxWordLength
  {
    var n := FeatureCount(length);
    if length <= MaxWordLength {
      forall c | c in FeatureColumns(n) ensures Name(c) in DeclaredColumns {
        var k := FeatureColumnIndex(n, c);
        DeclaredFeatureColumn(k);
      }
    } else {
      DeclaredFeatureColumn(27);
      FeatureColumnsMembers(n, 27);
    }
  }

  /** The first undeclared column a long word needs: a 15-letter word's last hold is d14. */
  lemma FifteenLettersNeedD14()
    ensures FeatureCount(15) == 29
    ensures Name(AvgColumn(28)) == "d14_avg" && AvgColumn(28) in FeatureColumns(29)
    ensures Name(AvgColumn(28)) !in DeclaredColumns
  {
    FourteenthHoldColumn();
    DeclaredFeatureColumn(28);
    FeatureColumnsMembers(29, 28);
  }

  /** Besides the feature pairs a row has one count column and the word key, and neither is a feature column. */
  lemma BookkeepingColumns(c: Column)
    ensures CountColumn in DeclaredColumns && WordColumn in DeclaredColumns
    ensures CountColumn != Name(c) && WordColumn != Name(c)
  {
  }
}
