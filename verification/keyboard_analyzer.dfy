/**
  KeyboardAnalyzer: collects the hold durations and latencies of the word
  being typed, and when the word ends checks it against the word's stored
  timing profile, updates the profile and the anomaly score, and raises the
  alert when the score passes its threshold.

  The profiles table is a map from word to Row (the word column is UNIQUE),
  the saved score and the alert are recorded as events, and the clock
  (elapsedRealtime) and Math.sqrt are supplied by the caller.
 */
module Analyzer {
  import opened ColumnNames
  import opened ProfileContract
  import opened Moments
  import opened Profiles
  import opened Consistency
  import opened AnomalyScore

  /** Keyboard.KEYCODE_DELETE. */
  const KeycodeDelete: int := -5

  /** COUNT_THRESHOLD: a word seen fewer times than this is still being calibrated and is not judged. */
  const CountThreshold: int := 5

  /** What the analyzer does outside its own fields, in order. */
  datatype Event =
    | Alert                       // exitToHome: the home screen is brought up
    | ScoreSaved(score: real)     // the score is written to the shared preferences
    | RowInserted(word: string)   // insertWord
    | RowUpdated(word: string)    // updateWord

  /**
    (char)c == ' ': the key code's low 16 bits are a space. For a code that
    fits a char this is c == 32; delete is never taken for a space.
   */
  predicate IsSpace(c: int)
    ensures 0 <= c < 0x1_0000 ==> (IsSpace(c) <==> c == 32)
    ensures IsSpace(c) ==> c != KeycodeDelete
  {
    c % 0x1_0000 == ' ' as int
  }

  /** Only the low 16 bits matter: a code 0x10000 above a space also ends the word. */
  lemma SpaceCodesRepeat(c: int)
    ensures IsSpace(c) <==> IsSpace(c + 0x1_0000)
    ensures IsSpace(0x1_0020)
  {
  }

  /** The key codes of A-Z and a-z: exactly the codes whose character is an ASCII letter. */
  predicate IsLetterCode(c: int)
    ensures IsLetterCode(c) <==> 0 <= c < 0x80 && IsLetter(c as char)
  {
    64 < c < 91 || 96 < c < 123
  }

  predicate IsLetter(ch: char)
  {
    'A' <= ch <= 'Z' || 'a' <= ch <= 'z'
  }

  function LowerChar(ch: char): char
  {
    if 'A' <= ch <= 'Z' then (ch as int + 32) as char else ch
  }

  /** String.toLowerCase on ASCII text: the letters A-Z become a-z, everything else stays. */
  function ToLower(w: string): (r: string)
    ensures |r| == |w|
    ensures forall i :: 0 <= i < |w| ==> !('A' <= r[i] <= 'Z') && (IsLetter(w[i]) ==> IsLetter(r[i]))
    ensures forall i :: 0 <= i < |w| && 'A' <= w[i] <= 'Z' ==> r[i] as int == w[i] as int + 32
    ensures forall i :: 0 <= i < |w| ==> !('A' <= w[i] <= 'Z') ==> r[i] == w[i]
  {
    seq(|w|, i requires 0 <= i < |w| => LowerChar(w[i]))
  }

  /** a and b spell the same word up to the case of its letters. */
  predicate SameUpToCase(a: string, b: string)
  {
    && |a| == |b|
    && forall i :: 0 <= i < |a| ==>
         || a[i] == b[i]
         || ('A' <= a[i] <= 'Z' && b[i] as int == a[i] as int + 32)
         || ('A' <= b[i] <= 'Z' && a[i] as int == b[i] as int + 32)
  }

  /** The word-list lookup is case-insensitive: two words lower-case alike exactly when they differ only in case. */
  lemma ToLowerIgnoresCase(a: string, b: string)
    ensures ToLower(a) == ToLower(b) <==> SameUpToCase(a, b)
  {
    if SameUpToCase(a, b) {
      assert forall i :: 0 <= i < |a| ==> ToLower(a)[i] == ToLower(b)[i];
    }
    if ToLower(a) == ToLower(b) {
      assert forall i :: 0 <= i < |a| ==> LowerChar(a[i]) == LowerChar(b[i]);
    }
  }

  /** getLatency: the time between two key presses minus the hold of the latest one, never negative. */
  function PressLatency(now: int, last: int, duration: int): (l: int)
    ensures 0 <= l && now - last - duration <= l
    ensures l == 0 || l == now - last - duration
  {
    if now - last - duration < 0 then 0 else now - last - duration
  }

  /** Every word of the word list has between 1 and MaxWordLength letters. */
  ghost predicate VocabularyFits(vocab: set<string>)
  {
    forall w :: w in vocab ==> 1 <= |w| <= MaxWordLength
  }

  /**
    The row of every stored word of the word list holds exactly its features,
    with no negative variance. A row left over from a word that is no longer
    in the list is never read, so nothing is asked of it.
   */
  ghost predicate StoreWellFormed(db: map<string, Row>, vocab: set<string>)
  {
    forall w :: w in db && w in vocab ==> WellFormed(db[w], FeatureCount(|w|))
  }

  /**
    A row kept for a word that has left the word list, whatever it holds,
    leaves the store well formed: updateEntry never reads it.
   */
  lemma StaleRowIgnored(db: map<string, Row>, vocab: set<string>, w: string, row: Row)
    requires StoreWellFormed(db, vocab) && w !in vocab
    ensures StoreWellFormed(db[w := row], vocab)
  {
  }

  /** Storing a well-formed row for a word of the word list keeps the store well formed. */
  lemma StoreUpdate(db: map<string, Row>, vocab: set<string>, w: string, row: Row)
    requires StoreWellFormed(db, vocab) && w in vocab && WellFormed(row, FeatureCount(|w|))
    ensures StoreWellFormed(db[w := row], vocab)
  {
  }

  /** Logging a batch of events and then one more is logging the batch with that event at its end. */
  lemma LogAppend(log: seq<Event>, batch: seq<Event>, e: Event)
    ensures (log + batch) + [e] == log + (batch + [e])
    ensures |batch| == 1 ==> batch + [e] == [batch[0], e]
    ensures |batch| == 2 ==> batch + [e] == [batch[0], batch[1], e]
  {
  }

  /**
    The row of w, if w is a stored word of the word list, has a positive count
    and the columns of n features: what updateEntry reads.
   */
  ghost predicate RowFits(db: map<string, Row>, vocab: set<string>, w: string, n: nat)
  {
    w in db && w in vocab ==> 1 <= db[w].count && FeatureColumns(n) <= db[w].cols.Keys
  }

  /** In a well-formed store a word's row fits the word's timings. */
  lemma StoreRowFits(db: map<string, Row>, vocab: set<string>, w: string, x: seq<int>)
    requires StoreWellFormed(db, vocab) && |x| == FeatureCount(|w|)
    ensures RowFits(db, vocab, w, |x|)
  {
  }

  /** The store, the score and the new events after a word ends. */
  datatype Outcome = Outcome(db: map<string, Row>, score: real, events: seq<Event>)

  /**
    updateEntry for the lower-cased word w typed with timings x: a word
    outside the word list is ignored; a word not stored yet is inserted; a
    stored word seen fewer than COUNT_THRESHOLD times is merged without
    judgement; otherwise the word is judged, the score updated (with the
    alert when it passes the threshold) and saved, and the timings merged
    only when the word was consistent. sqrt stands for Math.sqrt; the score
    moves by the square root of the word's length.
   */
  function Entry(w: string, x: seq<int>, vocab: set<string>, db: map<string, Row>, score: real, sqrt: real -> real): (o: Outcome)
    requires RowFits(db, vocab, w, |x|)
    ensures o.score != score ==> w in vocab && w in db && db[w].count >= CountThreshold
  {
    if w !in vocab then Outcome(db, score, [])
    else if w !in db then Outcome(db[w := Inserted(x)], score, [RowInserted(w)])
    else
      var row := db[w];
      if row.count < CountThreshold then Outcome(db[w := Merged(row, x)], score, [RowUpdated(w)])
      else
        var ok := Consistent(|w|, StdDevPassCount(x, Flatten(row.cols, |x|), sqrt));
        var v := Rescore(score, Root(sqrt, |w| as real), ok);
        if ok then
          Outcome(db[w := Merged(row, x)], v.score,
                  if v.alert then [Alert, ScoreSaved(v.score), RowUpdated(w)] else [ScoreSaved(v.score), RowUpdated(w)])
        else Outcome(db, v.score, if v.alert then [Alert, ScoreSaved(v.score)] else [ScoreSaved(v.score)])
  }

  /** Only words of the word list are ever stored, and one word logs at most three events. */
  lemma EntryShape(w: string, x: seq<int>, vocab: set<string>, db: map<string, Row>, score: real, sqrt: real -> real)
    requires RowFits(db, vocab, w, |x|)
    ensures var o := Entry(w, x, vocab, db, score, sqrt);
      && o.db.Keys == (if w in vocab then db.Keys + {w} else db.Keys)
      && |o.events| <= 3
  {
  }

  /** A word outside the word list changes nothing. */
  lemma EntryIgnoresUnknownWords(w: string, x: seq<int>, vocab: set<string>, db: map<string, Row>, score: real, sqrt: real -> real)
    requires w !in vocab
    ensures Entry(w, x, vocab, db, score, sqrt) == Outcome(db, score, [])
  {
  }

  /**
    The first time a word is seen its row stores the timings as averages with
    variance 0 and count 1, and reading the row back gives exactly that; the
    score is not touched.
   */
  lemma EntryStoresFirstSighting(w: string, x: seq<int>, vocab: set<string>, db: map<string, Row>, score: real, sqrt: real -> real)
    requires w in vocab && w !in db
    ensures RowFits(db, vocab, w, |x|)
    ensures var o := Entry(w, x, vocab, db, score, sqrt);
      && o.db == db[w := Inserted(x)] && o.db[w].count == 1
      && Unflatten(Flatten(o.db[w].cols, |x|)) == Initial(x)
      && o.score == score && o.events == [RowInserted(w)]
  {
    ExtractStored(Initial(x));
  }

  /** While a word is being calibrated its timings are always merged and the score is not touched. */
  lemma EntryCalibrates(w: string, x: seq<int>, vocab: set<string>, db: map<string, Row>, score: real, sqrt: real -> real)
    requires RowFits(db, vocab, w, |x|) && w in vocab && w in db && db[w].count < CountThreshold
    ensures var o := Entry(w, x, vocab, db, score, sqrt);
      && o.db == db[w := Merged(db[w], x)]
      && o.db[w].count == db[w].count + 1
      && o.score == score && o.events == [RowUpdated(w)]
  {
  }

  /**
    A calibrated word whose timings are inconsistent with its profile leaves
    every profile as it was and raises the score by step; when that takes
    the score over the threshold the alert comes first and the score saved
    is 0.
   */
  lemma EntryRejects(w: string, x: seq<int>, vocab: set<string>, db: map<string, Row>, score: real, sqrt: real -> real)
    requires RowFits(db, vocab, w, |x|) && w in vocab && w in db && db[w].count >= CountThreshold
    requires !Consistent(|w|, StdDevPassCount(x, Flatten(db[w].cols, |x|), sqrt))
    ensures var o := Entry(w, x, vocab, db, score, sqrt); var step := Root(sqrt, |w| as real);
      && o.db == db
      && (score + step <= ScoreThreshold ==> o.score == score + step && o.events == [ScoreSaved(o.score)])
      && (score + step > ScoreThreshold ==> o.score == 0.0 && o.events == [Alert, ScoreSaved(0.0)])
  {
    var step := Root(sqrt, |w| as real);
    if score + step <= ScoreThreshold {
      InconsistentRaises(score, step);
    }
  }

  /**
    A calibrated word whose timings are consistent with its profile is
    merged into it and the score is lowered and saved; from a score in
    [0, SCORE_THRESHOLD] the score drops by step (not below 0) and no alert
    is raised.
   */
  lemma EntryAccepts(w: string, x: seq<int>, vocab: set<string>, db: map<string, Row>, score: real, sqrt: real -> real)
    requires RowFits(db, vocab, w, |x|) && w in vocab && w in db && db[w].count >= CountThreshold
    requires Consistent(|w|, StdDevPassCount(x, Flatten(db[w].cols, |x|), sqrt))
    ensures var o := Entry(w, x, vocab, db, score, sqrt); var step := Root(sqrt, |w| as real); var v := Rescore(score, step, true);
      && o.db == db[w := Merged(db[w], x)]
      && o.score == v.score
      && o.events == (if v.alert then [Alert, ScoreSaved(v.score), RowUpdated(w)] else [ScoreSaved(v.score), RowUpdated(w)])
    ensures var step := Root(sqrt, |w| as real); 0.0 <= score <= ScoreThreshold && 0.0 <= step ==>
      var o := Entry(w, x, vocab, db, score, sqrt);
      && o.score == (if score < step then 0.0 else score - step)
      && o.events == [ScoreSaved(o.score), RowUpdated(w)]
  {
    var step := Root(sqrt, |w| as real);
    if 0.0 <= score <= ScoreThreshold && 0.0 <= step {
      ConsistentLowers(score, step);
    }
  }

  /** Only the typed word's row can change. */
  lemma EntryTouchesOnlyItsWord(w: string, x: seq<int>, vocab: set<string>, db: map<string, Row>, score: real, sqrt: real -> real, other: string)
    requires RowFits(db, vocab, w, |x|) && other != w
    ensures var o := Entry(w, x, vocab, db, score, sqrt);
      && (other in o.db <==> other in db)
      && (other in db ==> o.db[other] == db[other])
  {
  }

  /** Every outcome keeps the store well formed: rows keep their columns and no variance becomes negative. */
  lemma EntryKeepsStoreWellFormed(w: string, x: seq<int>, vocab: set<string>, db: map<string, Row>, score: real, sqrt: real -> real)
    requires StoreWellFormed(db, vocab) && |x| == FeatureCount(|w|)
    ensures RowFits(db, vocab, w, |x|)
    ensures StoreWellFormed(Entry(w, x, vocab, db, score, sqrt).db, vocab)
  {
    StoreRowFits(db, vocab, w, x);
    if w in vocab {
      if w !in db {
        InsertedWellFormed(x);
        StoreUpdate(db, vocab, w, Inserted(x));
      } else {
        MergedWellFormed(db[w], x);
        StoreUpdate(db, vocab, w, Merged(db[w], x));
      }
    }
  }

  /** A score in [0, 20] stays in [0, 20] whatever word is typed. */
  lemma EntryKeepsScoreInRange(w: string, x: seq<int>, vocab: set<string>, db: map<string, Row>, score: real, sqrt: real -> real)
    requires RowFits(db, vocab, w, |x|)
    requires 0.0 <= score <= ScoreThreshold && 0.0 <= Root(sqrt, |w| as real)
    ensures 0.0 <= Entry(w, x, vocab, db, score, sqrt).score <= ScoreThreshold
  {
    if w in vocab && w in db && db[w].count >= CountThreshold {
      RescoreInRange(score, Root(sqrt, |w| as real), Consistent(|w|, StdDevPassCount(x, Flatten(db[w].cols, |x|), sqrt)));
    }
  }

  /**
    With Math.sqrt an exact square root, a stored word is judged by the
    squared test: its count of passing timings is PassCount.
   */
  lemma EntryJudgesBySquaredTest(w: string, x: seq<int>, vocab: set<string>, db: map<string, Row>, sqrt: real -> real)
    requires StoreWellFormed(db, vocab) && |x| == FeatureCount(|w|) && w in db && w in vocab && SquareRoot(sqrt)
    ensures FeatureColumns(|x|) <= db[w].cols.Keys
    ensures StdDevPassCount(x, Flatten(db[w].cols, |x|), sqrt) == PassCount(x, Flatten(db[w].cols, |x|))
  {
    FlattenedVariances(db[w], |x|);
    ExactStdDevPassCount(x, Flatten(db[w].cols, |x|), sqrt);
  }

  /** Every column a well-formed store holds is declared by the profiles table. */
  lemma StoredColumnsDeclared(db: map<string, Row>, vocab: set<string>, w: string)
    requires VocabularyFits(vocab) && StoreWellFormed(db, vocab) && w in db && w in vocab
    ensures AllDeclared(db[w].cols.Keys)
  {
    WordFitsSchema(|w|);
  }

  class KeyboardAnalyzer {
    /** The letters of the word being typed. */
    var curWord: string
    /** Its timings: hold of letter 0, then latency and hold for every further letter. */
    var curTimings: seq<int>
    /** The clock reading at the previous key press. */
    var timer: int
    var score: real
    /** The profiles table. */
    var db: map<string, Row>
    var events: seq<Event>
    /** The word list. */
    const wordSet: set<string>
    /** Math.sqrt. */
    const sqrt: real -> real

    ghost predicate Valid()
      reads this
    {
      && VocabularyFits(wordSet)
      && StoreWellFormed(db, wordSet)
      && (forall i :: 0 <= i < |curWord| ==> IsLetter(curWord[i]))
      && |curTimings| == FeatureCount(|curWord|)
      && (forall k :: 0 <= k < |curTimings| && k % 2 == 1 ==> 0 <= curTimings[k])
    }

    /** The analyzer starts with no word, the saved score, the stored profiles and the clock's current reading. */
    constructor (vocabulary: set<string>, squareRoot: real -> real, savedScore: real, store: map<string, Row>, now: int)
      requires VocabularyFits(vocabulary) && StoreWellFormed(store, vocabulary)
      ensures Valid()
      ensures wordSet == vocabulary && sqrt == squareRoot
      ensures curWord == [] && curTimings == [] && timer == now
      ensures score == savedScore && db == store && events == []
    {
      wordSet := vocabulary;
      sqrt := squareRoot;
      curWord := [];
      curTimings := [];
      timer := now;
      score := savedScore;
      db := store;
      events := [];
    }

    /**
      push_char: the key with code c was held for `duration` and the clock
      now reads `now`. A space ends the word (updateEntry), delete drops it,
      a letter extends it, anything else is ignored. The clock is read only
      when a word is under way.
     */
    method PushChar(c: int, duration: int, now: int)
      requires Valid()
      modifies this`curWord, this`curTimings, this`timer, this`score, this`db, this`events
      ensures Valid()
      ensures timer == if |old(curWord)| > 0 then now else old(timer)
      ensures IsSpace(c) ==>
        && curWord == [] && curTimings == []
        && var o := Entry(ToLower(old(curWord)), old(curTimings), wordSet, old(db), old(score), sqrt);
           db == o.db && score == o.score && events == old(events) + o.events
      ensures !IsSpace(c) && c == KeycodeDelete ==>
        curWord == [] && curTimings == [] && db == old(db) && score == old(score) && events == old(events)
      ensures !IsSpace(c) && c != KeycodeDelete && IsLetterCode(c) ==>
        && curWord == old(curWord) + [c as char]
        && curTimings == old(curTimings)
                         + (if |old(curWord)| > 0 then [PressLatency(now, old(timer), duration)] else [])
                         + [duration]
        && db == old(db) && score == old(score) && events == old(events)
      ensures !IsSpace(c) && c != KeycodeDelete && !IsLetterCode(c) ==>
        curWord == old(curWord) && curTimings == old(curTimings) && db == old(db) && score == old(score) && events == old(events)
    {
      var latency := 0;
      if |curWord| > 0 {
        latency := GetLatency(duration, now);
      }
      if IsSpace(c) {
        EntryKeepsStoreWellFormed(ToLower(curWord), curTimings, wordSet, db, score, sqrt);
        UpdateEntry();
        ResetWord();
      } else if c == KeycodeDelete {
        ResetWord();
      } else if IsLetterCode(c) {
        if |curWord| > 0 {
          curTimings := curTimings + [latency];
        }
        curTimings := curTimings + [duration];
        curWord := curWord + [c as char];
      }
    }

    /** getLatency: the latency of the current key press; the timer moves to now. */
    method GetLatency(duration: int, now: int) returns (latency: int)
      modifies this`timer
      ensures timer == now
      ensures latency == PressLatency(now, old(timer), duration)
    {
      var newTimer := now;
      latency := newTimer - timer - duration;
      if latency < 0 {
        latency := 0;
      }
      timer := newTimer;
    }

    /** resetWord. */
    method ResetWord()
      modifies this`curWord, this`curTimings
      ensures curWord == [] && curTimings == []
    {
      curWord := [];
      curTimings := [];
    }

    /** updateEntry: the outcome Entry describes, for the current word lower-cased. */
    method UpdateEntry()
      requires Valid()
      modifies this`db, this`score, this`events
      ensures unchanged(this`curWord, this`curTimings)
      ensures var o := Entry(ToLower(curWord), curTimings, wordSet, old(db), old(score), sqrt);
        db == o.db && score == o.score && events == old(events) + o.events
    {
      var word := ToLower(curWord);
      ghost var x, store, before, log := curTimings, db, score, events;
      if word in wordSet {
        var length := |word|;
        if word in db {
          UpdateStoredWord(word);
        } else {
          StoreRowFits(store, wordSet, word, x);
          EntryStoresFirstSighting(word, x, wordSet, store, before, sqrt);
          InsertWord(word, length);
          assert events == log + Entry(word, x, wordSet, store, before, sqrt).events && db == Entry(word, x, wordSet, store, before, sqrt).db;
        }
      } else {
        EntryIgnoresUnknownWords(word, x, wordSet, store, before, sqrt);
        assert events == log + Entry(word, x, wordSet, store, before, sqrt).events && db == Entry(word, x, wordSet, store, before, sqrt).db;
      }
      assert ToLower(curWord) == word && curTimings == x;
    }

    /** The branch of updateEntry for a vocabulary word that already has a row. */
    method UpdateStoredWord(word: string)
      requires Valid() && word == ToLower(curWord) && word in wordSet && word in db
      modifies this`db, this`score, this`events
      ensures unchanged(this`curWord, this`curTimings)
      ensures var o := Entry(word, curTimings, wordSet, old(db), old(score), sqrt);
        db == o.db && score == o.score && events == old(events) + o.events
    {
      StoreRowFits(db, wordSet, word, curTimings);
      var length := |word|;
      var count := db[word].count;
      var timings := ExtractTimings(word, length);
      if count < CountThreshold {
        CalibrateStoredWord(word, timings);
      } else {
        JudgeStoredWord(word, timings);
      }
    }

    /** The branch of updateEntry for a word whose row is still below COUNT_THRESHOLD: merge without judging. */
    method CalibrateStoredWord(word: string, timings: seq<real>)
      requires Valid() && word == ToLower(curWord) && word in wordSet && word in db && db[word].count < CountThreshold
      requires FeatureColumns(|curTimings|) <= db[word].cols.Keys && timings == Flatten(db[word].cols, |curTimings|)
      modifies this`db, this`events
      ensures unchanged(this`curWord, this`curTimings)
      ensures var o := Entry(word, curTimings, wordSet, old(db), old(score), sqrt);
        db == o.db && score == o.score && events == old(events) + o.events
    {
      ghost var x, store, before, log := curTimings, db, score, events;
      StoreRowFits(store, wordSet, word, x);
      var count := db[word].count;
      MergedWith(store[word], x, timings, count);
      EntryCalibrates(word, x, wordSet, store, before, sqrt);
      UpdateWord(word, |word|, timings, count);
      assert events == log + Entry(word, x, wordSet, store, before, sqrt).events && db == Entry(word, x, wordSet, store, before, sqrt).db;
    }

    /** The branch of updateEntry for a word whose row has reached COUNT_THRESHOLD: judge, then merge if consistent. */
    method JudgeStoredWord(word: string, timings: seq<real>)
      requires 1 <= |curWord| && |curTimings| == FeatureCount(|curWord|)
      requires word == ToLower(curWord) && word in wordSet && word in db && CountThreshold <= db[word].count
      requires FeatureColumns(|curTimings|) <= db[word].cols.Keys && timings == Flatten(db[word].cols, |curTimings|)
      modifies this`db, this`score, this`events
      ensures unchanged(this`curWord, this`curTimings)
      ensures var o := Entry(word, curTimings, wordSet, old(db), old(score), sqrt);
        db == o.db && score == o.score && events == old(events) + o.events
    {
      ghost var x, store, before, log := curTimings, db, score, events;
      var length := |word|;
      var count := db[word].count;
      MergedWith(store[word], x, timings, count);
      var ok := CheckWordUpdateScore(timings);
      if ok {
        EntryAccepts(word, x, wordSet, store, before, sqrt);
        ghost var v := Rescore(before, Root(sqrt, |word| as real), true);
        ghost var saved := if v.alert then [Alert, ScoreSaved(v.score)] else [ScoreSaved(v.score)];
        assert score == v.score && events == log + saved;
        UpdateWord(word, length, timings, count);
        LogAppend(log, saved, RowUpdated(word));
        assert events == log + Entry(word, x, wordSet, store, before, sqrt).events && db == Entry(word, x, wordSet, store, before, sqrt).db;
      } else {
        EntryRejects(word, x, wordSet, store, before, sqrt);
        assert events == log + Entry(word, x, wordSet, store, before, sqrt).events && db == Entry(word, x, wordSet, store, before, sqrt).db;
      }
      assert curTimings == x;
    }

    /** extractTimings: the stored average and variance of each of the word's features, in feature order. */
    method ExtractTimings(word: string, length: int) returns (timings: seq<real>)
      requires word in db && 1 <= length && FeatureColumns(2 * length - 1) <= db[word].cols.Keys
      ensures timings == Flatten(db[word].cols, 2 * length - 1)
    {
      var cols := db[word].cols;
      timings := [];
      var i := 0;
      while i < length - 1
        invariant 0 <= i <= length - 1
        invariant FeatureColumns(2 * i) <= cols.Keys
        invariant timings == Flatten(cols, 2 * i)
      {
        FlattenStep(cols, i, 2 * length - 1);
        timings := timings + [cols[Column(Hold, i, Avg)], cols[Column(Hold, i, Var)],
                              cols[Column(Latency, i, Avg)], cols[Column(Latency, i, Var)]];
        i := i + 1;
      }
      assert i == length - 1;
      FlattenLastHold(cols, i);
      timings := timings + [cols[Column(Hold, i, Avg)], cols[Column(Hold, i, Var)]];
    }

    /**
      checkWordUpdateScore: counts the timings within two standard deviations
      of their stored averages, judges the word by the count, updates the
      score by sqrt(L), inspects it and saves it.
     */
    method CheckWordUpdateScore(timings: seq<real>) returns (result: bool)
      requires 1 <= |curWord| && |curTimings| == 2 * |curWord| - 1 && |timings| == 2 * |curTimings|
      modifies this`score, this`events
      ensures unchanged(this`curWord, this`curTimings)
      ensures result == Consistent(|curWord|, StdDevPassCount(curTimings, timings, sqrt))
      ensures var v := Rescore(old(score), Root(sqrt, |curWord| as real), result);
        score == v.score && events == old(events) + if v.alert then [Alert, ScoreSaved(score)] else [ScoreSaved(score)]
    {
      var length := |curWord|;
      var miniScore := 0;
      var i := 0;
      ghost var k := 0;
      while i < 4 * length - 2
        invariant 0 <= k <= |curTimings| && i == 2 * k
        invariant miniScore == StdDevPassCount(curTimings[..k], timings, sqrt)
        invariant score == old(score) && events == old(events)
      {
        var value := curTimings[i / 2];
        var avg := timings[i];
        var stdDev := Root(sqrt, timings[i + 1]);
        StdDevPassCountSnoc(curTimings, timings, sqrt, k);
        if Abs(value as real - avg) < StdDevThreshold * stdDev {
          miniScore := miniScore + 1;
        }
        i, k := i + 2, k + 1;
      }
      assert curTimings[..k] == curTimings;
      var num, dom;
      if length == 1 {
        num, dom := 1, 1;
      } else if length == 2 {
        num, dom := 2, 3;
      } else {
        num, dom := 3, 4;
      }
      assert miniScore == StdDevPassCount(curTimings, timings, sqrt) && (num, dom) == Ratio(length);
      assert dom * miniScore < num * (2 * length - 1) <==> !Consistent(length, miniScore);
      if dom * miniScore < num * (2 * length - 1) {
        score := score + Root(sqrt, length as real);
        result := false;
      } else {
        score := score - Root(sqrt, length as real);
        if score < 0.0 {
          score := 0.0;
        }
        result := true;
      }
      InspectScore();
      events := events + [ScoreSaved(score)];
    }

    /** inspectScore: a score above the threshold is reset to 0 and the alert raised. */
    method InspectScore()
      modifies this`score, this`events
      ensures score == Inspect(old(score)).score
      ensures events == old(events) + if Inspect(old(score)).alert then [Alert] else []
    {
      if score > ScoreThreshold {
        score := 0.0;
        ExitToHome();
      }
    }

    /** exitToHome. */
    method ExitToHome()
      modifies this`events
      ensures events == old(events) + [Alert]
    {
      events := events + [Alert];
    }

    /**
      updateWord: every feature k merged from its stored average timings[2k]
      and variance timings[2k + 1] with its new timing, the count incremented;
      the word's other columns are kept.
     */
    method UpdateWord(word: string, length: int, timings: seq<real>, count: int)
      requires word in db && 1 <= length && 1 <= count
      requires |curTimings| == 2 * length - 1 && |timings| == 2 * |curTimings|
      modifies this`db, this`events
      ensures unchanged(this`curWord, this`curTimings)
      ensures db == old(db)[word := Row(count + 1, old(db)[word].cols + Columns(Updated(timings, curTimings, count)))]
      ensures events == old(events) + [RowUpdated(word)]
    {
      ghost var fs := Updated(timings, curTimings, count);
      var row: map<Column, real> := map[];
      var i := 0;
      ghost var k := 0;
      while i < 4 * length - 2
        invariant 0 <= k <= |curTimings| && i == 2 * k
        invariant row == Columns(fs[..k])
        invariant db == old(db) && events == old(events)
      {
        ColumnsStep(fs, k, i);
        var avg := timings[i];
        var variance := timings[i + 1];
        var value := curTimings[i / 2];
        var newAvg := UpdateMean(avg, value as real, count);
        var newVar := UpdateVar(variance, avg, value as real, count);
        UpdatedAt(timings, curTimings, count, k, i, avg, variance, value);
        if (i / 2) % 2 == 0 {
          row := row[Column(Hold, i / 4, Avg) := newAvg];
          row := row[Column(Hold, i / 4, Var) := newVar];
        } else {
          row := row[Column(Latency, i / 4, Avg) := newAvg];
          row := row[Column(Latency, i / 4, Var) := newVar];
        }
        i, k := i + 2, k + 1;
      }
      assert fs[..k] == fs;
      db := db[word := Row(count + 1, db[word].cols + row)];
      events := events + [RowUpdated(word)];
    }

    /** insertWord: a new row with the timings as averages, variances 0 and count 1. */
    method InsertWord(word: string, length: int)
      requires word !in db && 1 <= length && |curTimings| == 2 * length - 1
      modifies this`db, this`events
      ensures unchanged(this`curWord, this`curTimings)
      ensures db == old(db)[word := Inserted(curTimings)]
      ensures events == old(events) + [RowInserted(word)]
    {
      ghost var fs := Initial(curTimings);
      var row: map<Column, real> := map[];
      var i := 0;
      ghost var k := 0;
      while i < 4 * length - 2
        invariant 0 <= k <= |curTimings| && i == 2 * k
        invariant row == Columns(fs[..k])
        invariant db == old(db) && events == old(events)
      {
        ColumnsStep(fs, k, i);
        if (i / 2) % 2 == 0 {
          row := row[Column(Hold, i / 4, Avg) := curTimings[i / 2] as real];
          row := row[Column(Hold, i / 4, Var) := 0.0];
        } else {
          row := row[Column(Latency, i / 4, Avg) := curTimings[i / 2] as real];
          row := row[Column(Latency, i / 4, Var) := 0.0];
        }
        i, k := i + 2, k + 1;
      }
      assert fs[..k] == fs;
      db := db[word := Row(1, row)];
      events := events + [RowInserted(word)];
    }
  }
}
