/** What the four roundings between tokens and notes guarantee, at any rate. */
module NoteRounding {
  import opened Outcomes
  import opened Rounding
  import opened FixedPoint
  import opened PoolModel

  /**
   How far a rounded-up number of notes can fall short of the tokens it stands for, in units of
   10^-15 token: the quotient is truncated before it is rounded up. It is ceil(rate) - 1, so
   nothing at a rate of exactly one.
   */
  function Slack(rate: nat): nat
    requires 0 < rate
  {
    (rate - 1) / ONE
  }

  lemma SlackGrowsSlowly(rate: nat, more: nat)
    requires ONE <= rate <= more
    ensures Slack(rate) <= rate - ONE
    ensures Slack(more) - Slack(rate) <= more - rate
  {
  }

  /** Rounding x / rate down through a truncated quotient q is rounding it down at once. */
  lemma FloorOfQuotient(x: nat, rate: nat, q: nat, n: nat)
    requires q * rate <= x * ONE < q * rate + rate
    requires n * ONE <= q < n * ONE + ONE
    ensures n * rate <= x < n * rate + rate
  {
    MulLe(n * ONE, q, rate);
    MulLe(q + 1, n * ONE + ONE, rate);
    assert n * ONE * rate == (n * rate) * ONE;
    assert (n * ONE + ONE) * rate == (n * rate + rate) * ONE;
    assert (q + 1) * rate == q * rate + rate;
  }

  /** Rounding x / rate up through a truncated quotient q can fall short by the slack. */
  lemma CeilingOfQuotient(x: nat, rate: nat, q: nat, n: nat)
    requires q * rate <= x * ONE < q * rate + rate
    requires n * ONE - ONE < q <= n * ONE
    ensures 0 < rate && x <= n * rate + Slack(rate)
    ensures 0 < n ==> (n - 1) * rate < x
  {
    MulLe(q, n * ONE, rate);
    assert n * ONE * rate == (n * rate) * ONE;
    DivAtLeast(rate - 1, ONE, x - n * rate);
    if 0 < n {
      MulLe((n - 1) * ONE + 1, q, rate);
      assert ((n - 1) * ONE + 1) * rate == ((n - 1) * rate) * ONE + rate;
    }
  }

  /** Rounding down gives the notes that the tokens pay for in full. */
  lemma DownFromTokens(tokens: nat, rate: nat, full: FullAmount)
    requires ConvertAtRate(Tokens(tokens), Down, rate) == Ok(full)
    ensures 0 < rate && full.tokens == tokens
    ensures full.notes * rate <= tokens * ONE < full.notes * rate + rate
  {
    var q := tokens * ONE * ONE / rate;
    DivBounds(tokens * ONE * ONE, rate);
    DivBounds(q, ONE);
    FloorOfQuotient(tokens * ONE, rate, q, full.notes);
  }

  /** Rounding up takes notes worth the tokens, but for the slack, and no note too many. */
  lemma UpFromTokens(tokens: nat, rate: nat, full: FullAmount)
    requires ConvertAtRate(Tokens(tokens), Up, rate) == Ok(full)
    ensures 0 < rate && full.tokens == tokens
    ensures tokens * ONE <= full.notes * rate + Slack(rate)
    ensures 0 < full.notes ==> (full.notes - 1) * rate < tokens * ONE
  {
    var q := tokens * ONE * ONE / rate;
    DivBounds(tokens * ONE * ONE, rate);
    DivBounds(ONE - 1 + q, ONE);
    CeilingOfQuotient(tokens * ONE, rate, q, full.notes);
  }

  lemma NotesAtRate(notes: nat, rate: nat)
    requires Mul(notes * ONE, rate).Ok?
    ensures Mul(notes * ONE, rate).value == notes * rate
  {
    assert notes * ONE * rate == (notes * rate) * ONE;
    DivIs((notes * rate) * ONE, ONE, notes * rate);
  }

  lemma DownFromNotes(notes: nat, rate: nat, full: FullAmount)
    requires ConvertAtRate(Notes(notes), Down, rate) == Ok(full)
    ensures full.notes == notes
    ensures full.tokens * ONE <= notes * rate < full.tokens * ONE + ONE
  {
    NotesAtRate(notes, rate);
    DivBounds(notes * rate, ONE);
  }

  lemma UpFromNotes(notes: nat, rate: nat, full: FullAmount)
    requires ConvertAtRate(Notes(notes), Up, rate) == Ok(full)
    ensures full.notes == notes
    ensures notes * rate <= full.tokens * ONE < notes * rate + ONE
  {
    NotesAtRate(notes, rate);
    DivBounds(ONE - 1 + notes * rate, ONE);
  }

  /** What notes are worth at a rate, in whole tokens rounded down. */
  function FloorValue(notes: nat, rate: nat): nat {
    DivNonNegative(notes * rate, ONE);
    notes * rate / ONE
  }

  /** And rounded up. */
  function CeilValue(notes: nat, rate: nat): nat {
    DivNonNegative(notes * rate + ONE - 1, ONE);
    (notes * rate + ONE - 1) / ONE
  }

  // ----- the table of roundings -----

  /** The value of what comes to the pool in an exchange: tokens, or notes that are given up or owed to it. */
  function PoolGets(action: PoolAction, full: FullAmount, rate: nat): nat {
    match action
    case Deposit => full.tokens * ONE
    case Repay => full.tokens * ONE
    case Withdraw => full.notes * rate
    case Borrow => full.notes * rate
  }

  /** The value of what leaves it. */
  function PoolGives(action: PoolAction, full: FullAmount, rate: nat): nat {
    match action
    case Deposit => full.notes * rate
    case Repay => full.notes * rate
    case Withdraw => full.tokens * ONE
    case Borrow => full.tokens * ONE
  }

  lemma TokensFavourPool(tokens: nat, action: PoolAction, full: FullAmount, rate: nat)
    requires ConvertAtRate(Tokens(tokens), Direction(action, Tokens(tokens)), rate) == Ok(full)
    ensures full.tokens == tokens && 0 < rate
    ensures PoolGives(action, full, rate) <= PoolGets(action, full, rate)
                                             + (if action == Withdraw || action == Borrow then Slack(rate) else 0)
    ensures PoolGets(action, full, rate) < PoolGives(action, full, rate) + rate
  {
    if Direction(action, Tokens(tokens)) == Down {
      DownFromTokens(tokens, rate, full);
    } else {
      UpFromTokens(tokens, rate, full);
      if 0 < full.notes { OneNoteLess(full.notes, rate); }
    }
  }

  lemma OneNoteLess(notes: nat, rate: nat)
    requires 0 < notes
    ensures notes * rate == (notes - 1) * rate + rate
  {
  }

  lemma NotesFavourPool(notes: nat, action: PoolAction, full: FullAmount, rate: nat)
    requires ConvertAtRate(Notes(notes), Direction(action, Notes(notes)), rate) == Ok(full)
    ensures full.notes == notes
    ensures PoolGives(action, full, rate) <= PoolGets(action, full, rate) < PoolGives(action, full, rate) + ONE
  {
    if Direction(action, Notes(notes)) == Down {
      DownFromNotes(notes, rate, full);
    } else {
      UpFromNotes(notes, rate, full);
    }
  }

  /**
   Every conversion keeps the amount it was given and rounds the other one so that the pool gets at
   least what it gives, by less than one note (when tokens were given) or one token (when notes
   were). Only a withdrawal or a loan by tokens can fall short, by the slack of the rate.
   */
  lemma ConversionFavoursPool(p: Pool, amount: Amount, action: PoolAction, full: FullAmount, rate: nat)
    requires ConvertAmount(p, amount, action) == Ok(full) && RateFor(p, action) == Ok(rate)
    ensures amount == (if amount.Tokens? then Tokens(full.tokens) else Notes(full.notes))
    ensures amount.Tokens? ==> 0 < rate
    ensures var slack := if amount.Tokens? && (action == Withdraw || action == Borrow) then Slack(rate) else 0;
            PoolGives(action, full, rate) <= PoolGets(action, full, rate) + slack
    ensures PoolGets(action, full, rate) < PoolGives(action, full, rate) + (if amount.Tokens? then rate else ONE)
  {
    match amount
    case Tokens(tokens) => TokensFavourPool(tokens, action, full, rate);
    case Notes(notes) => NotesFavourPool(notes, action, full, rate);
  }

  // ----- withdrawing by tokens -----

  /** Up to which number of tokens a withdrawal costs at most n notes. */
  lemma UpNotesAtMost(tokens: nat, rate: nat, full: FullAmount, n: nat)
    requires ConvertAtRate(Tokens(tokens), Up, rate) == Ok(full)
    ensures full.notes <= n <==> tokens * ONE * ONE < (n * ONE + 1) * rate
  {
    var q := tokens * ONE * ONE / rate;
    DivBounds(tokens * ONE * ONE, rate);
    DivBounds(ONE - 1 + q, ONE);
    assert full.notes <= n <==> q <= n * ONE;
    if q <= n * ONE { MulLe(q + 1, n * ONE + 1, rate); } else { MulLe(n * ONE + 1, q, rate); }
    assert (q + 1) * rate == q * rate + rate;
  }

  /** A withdrawal of that many tokens can be converted. */
  lemma WithinNotesConverts(tokens: nat, rate: nat, n: nat)
    requires 0 < tokens <= U64_MAX + 1 && n <= U64_MAX
    requires 0 < rate <= tokens * ONE * ONE && tokens * ONE * ONE < (n * ONE + 1) * rate
    ensures ConvertAtRate(Tokens(tokens), Up, rate).Ok?
    ensures var full := ConvertAtRate(Tokens(tokens), Up, rate).value;
            full.tokens == tokens && 0 < full.notes <= n
  {
    var q := tokens * ONE * ONE / rate;
    DivBounds(tokens * ONE * ONE, rate);
    DivAtLeast(tokens * ONE * ONE, rate, 1);
    if n * ONE < q { MulLe(n * ONE + 1, q, rate); }
    DivBounds(ONE - 1 + q, ONE);
    DivBelow(ONE - 1 + q, ONE, n + 1);
    DivAtLeast(ONE - 1 + q, ONE, 1);
  }

  // ----- closing a balance -----

  /** The quotient that is rounded up is above n - 1 by at least one unit. */
  lemma QuotientAboveLastNote(x: nat, rate: nat, q: nat, n: nat)
    requires ONE <= rate && 0 < n
    requires n * rate - ONE < x && x * ONE < q * rate + rate
    ensures (n - 1) * ONE < q
  {
    assert (n - 1) * ONE * rate == (n * rate) * ONE - rate * ONE;
    if q <= (n - 1) * ONE {
      MulLe(q, (n - 1) * ONE, rate);
    }
  }

  /** Turning notes into tokens rounded down and back rounded up returns the same notes, if a note is worth a token. */
  lemma DownThenUpIsExact(notes: nat, rate: nat, there: FullAmount, back: FullAmount)
    requires ONE <= rate
    requires ConvertAtRate(Notes(notes), Down, rate) == Ok(there)
    requires ConvertAtRate(Tokens(there.tokens), Up, rate) == Ok(back)
    ensures back.notes == notes
  {
    DownFromNotes(notes, rate, there);
    UpFromTokens(there.tokens, rate, back);
    if notes < back.notes { MulLe(notes, back.notes - 1, rate); }
    if back.notes < notes {
      var q := there.tokens * ONE * ONE / rate;
      DivBounds(there.tokens * ONE * ONE, rate);
      QuotientAboveLastNote(there.tokens * ONE, rate, q, notes);
    }
  }

  /**
   Turning notes into tokens rounded up and back rounded down never loses a note, and returns
   exactly the same notes if and only if the padding of the rounding up is worth less than a note.
   */
  lemma UpThenDown(notes: nat, rate: nat, there: FullAmount, back: FullAmount)
    requires ConvertAtRate(Notes(notes), Up, rate) == Ok(there)
    requires ConvertAtRate(Tokens(there.tokens), Down, rate) == Ok(back)
    ensures notes <= back.notes
    ensures back.notes == notes <==> there.tokens * ONE - notes * rate < rate
    ensures ONE <= rate ==> back.notes == notes
  {
    UpFromNotes(notes, rate, there);
    DownFromTokens(there.tokens, rate, back);
    QuotientIsUnique(there.tokens * ONE, rate, back.notes, notes);
  }

  lemma QuotientIsUnique(x: nat, rate: nat, q: nat, n: nat)
    requires q * rate <= x < q * rate + rate
    ensures q == n <==> n * rate <= x < n * rate + rate
    ensures n * rate <= x ==> n <= q
  {
    if q < n { MulLe(q + 1, n, rate); }
    if n < q { MulLe(n + 1, q, rate); }
  }

  /** At a rate of at least one, notes worth at most `bound` whole tokens convert to tokens and back. */
  lemma NotesConvert(notes: nat, rate: nat, bound: nat)
    requires ONE <= rate && notes <= U64_MAX && bound <= U64_MAX
    requires notes * rate < bound * ONE + ONE && notes * rate * ONE <= U192_MAX
    ensures ConvertAtRate(Notes(notes), Down, rate).Ok?
    ensures var there := ConvertAtRate(Notes(notes), Down, rate).value;
            && there.notes == notes && (there.tokens == 0 <==> notes == 0)
            && there.tokens == notes * rate / ONE <= bound
            && ConvertAtRate(Tokens(there.tokens), Up, rate) == Ok(FullAmount(there.tokens, notes))
  {
    assert notes * ONE * rate == notes * rate * ONE;
    NotesAtRate(notes, rate);
    DivBounds(notes * rate, ONE);
    var tokens := notes * rate / ONE;
    if 0 < notes { MulLe(1, notes, rate); }
    DivBelow(notes * rate, ONE, bound + 1);
    var there := ConvertAtRate(Notes(notes), Down, rate).value;
    TokensConvertUp(tokens, rate);
    DownThenUpIsExact(notes, rate, there, ConvertAtRate(Tokens(tokens), Up, rate).value);
  }

  lemma TokensConvertUp(tokens: nat, rate: nat)
    requires ONE <= rate && tokens <= U64_MAX
    ensures ConvertAtRate(Tokens(tokens), Up, rate).Ok?
    ensures ConvertAtRate(Tokens(tokens), Up, rate).value.tokens == tokens
  {
    var q := tokens * ONE * ONE / rate;
    DivBounds(tokens * ONE * ONE, rate);
    DivNonNegative(tokens * ONE * ONE, rate);
    MulLe(ONE, rate, q);
    assert q <= tokens * ONE;
    DivMono(ONE - 1 + q, ONE - 1 + tokens * ONE, ONE);
    DivIs(ONE - 1 + tokens * ONE, ONE, tokens);
  }
}
