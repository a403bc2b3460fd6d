/**
  The answer parser both remote analyses use: option `i` is labelled `str(i + 1)`,
  and the reply names the first option, in option order, whose label occurs
  anywhere in it; -1 when no label occurs.
*/
module Labels {
  import opened Text

  /** Option `i`'s label, `str(i + 1)`. */
  function Label(i: nat): (s: string)
    ensures |s| >= 1 && forall k :: 0 <= k < |s| ==> IsDigit(s[k])
  {
    Decimal(i + 1)
  }

  /** `str(i + 1) in reply` */
  predicate HasLabel(reply: string, i: nat) {
    Contains(reply, Label(i))
  }

  /** The first option from `from` up to `n` whose label occurs in `reply`, or -1. */
  function FirstLabelFrom(reply: string, from: nat, n: nat): (r: int)
    ensures r == -1 || (from <= r < n && HasLabel(reply, r))
    ensures r == -1 ==> forall j :: from <= j < n ==> !HasLabel(reply, j)
    ensures r != -1 ==> forall j :: from <= j < r ==> !HasLabel(reply, j)
    decreases n - from
  {
    if from >= n then -1
    else if HasLabel(reply, from) then from
    else FirstLabelFrom(reply, from + 1, n)
  }

  /**
    The loop `for i in range(n): if str(i+1) in reply: return i` followed by `return -1`:
    the smallest option whose label occurs, -1 exactly when none does.
  */
  function ParseLabel(reply: string, n: nat): (r: int)
    ensures -1 <= r < n
    ensures r >= 0 ==> HasLabel(reply, r) && forall j :: 0 <= j < r ==> !HasLabel(reply, j)
    ensures r == -1 <==> forall j :: 0 <= j < n ==> !HasLabel(reply, j)
  {
    FirstLabelFrom(reply, 0, n)
  }

  /** The parse names option `i` when its label is the first, in option order, to occur. */
  lemma ParseLabelFound(reply: string, n: nat, i: nat)
    requires i < n && HasLabel(reply, i)
    requires forall j :: 0 <= j < i ==> !HasLabel(reply, j)
    ensures ParseLabel(reply, n) == i
  {
  }

  /** Two replies in which the same labels occur parse alike. */
  lemma SameLabelsSameParse(a: string, b: string, n: nat)
    requires forall j :: 0 <= j < n ==> (HasLabel(a, j) <==> HasLabel(b, j))
    ensures ParseLabel(a, n) == ParseLabel(b, n)
  {
    var ra, rb := ParseLabel(a, n), ParseLabel(b, n);
    if ra >= 0 && rb >= 0 {
      assert HasLabel(b, ra) && HasLabel(a, rb);
    }
  }

  /** A reply without a digit names no option: a letter answer such as "B" gives -1. */
  lemma DigitFreeReply(reply: string, n: nat)
    requires forall k :: 0 <= k < |reply| ==> !IsDigit(reply[k])
    ensures ParseLabel(reply, n) == -1
  {
    forall j | 0 <= j < n ensures !HasLabel(reply, j) {
      ContainsFirstChar(reply, Label(j));
    }
  }

  /** Stripping the reply's surrounding whitespace never changes the option it names. */
  lemma StripKeepsParse(reply: string, n: nat)
    ensures ParseLabel(Strip(reply), n) == ParseLabel(reply, n)
  {
    forall j | 0 <= j < n ensures HasLabel(Strip(reply), j) <==> HasLabel(reply, j) {
      var l := Label(j);
      assert forall k :: 0 <= k < |l| ==> !IsSpace(l[k]) by {
        forall k | 0 <= k < |l| ensures !IsSpace(l[k]) {
          assert IsDigit(l[k]);
        }
      }
      StripKeepsOccurrences(reply, l);
    }
    SameLabelsSameParse(Strip(reply), reply, n);
  }

  lemma SingleCharContains(c: char, d: char)
    ensures Contains([c], [d]) <==> c == d
  {
    assert [c][1..] == [];
    assert !Contains([], [d]);
    assert IsPrefix([d], [c]) <==> c == d by {
      assert [c][..1] == [c];
    }
  }

  /**
    A reply that is exactly the label of one of the first nine options names that
    option, however many options there are; TenReadsAsOne shows the tenth does not.
  */
  lemma LabelRoundTrip(i: nat, n: nat)
    requires i < n && i < 9
    ensures ParseLabel(Label(i), n) == i
  {
    var reply := Label(i);
    assert reply == [DigitChar(i + 1)];
    forall j | 0 <= j < i ensures !HasLabel(reply, j) {
      assert Label(j) == [DigitChar(j + 1)];
      SingleCharContains(DigitChar(i + 1), DigitChar(j + 1));
    }
    SingleCharContains(DigitChar(i + 1), DigitChar(i + 1));
    assert HasLabel(reply, i);
  }

  /** Options are tried in option order, not in the order the labels appear: "2 or 1" names the first option. */
  lemma IndexOrderNotTextOrder()
    ensures ParseLabel("2 or 1", 4) == 0
  {
    assert Label(0) == "1";
    assert OccursAt("2 or 1", "1", 5);
    ContainsAt("2 or 1", "1");
  }

  /** With ten options the reply "10" names the first option, since "1" occurs in it. */
  lemma TenReadsAsOne()
    ensures ParseLabel("10", 10) == 0
  {
    assert Label(0) == "1";
    assert OccursAt("10", "1", 0);
    ContainsAt("10", "1");
  }

  /** The letter answer "The answer is B." names no option. */
  lemma LetterAnswerIgnored()
    ensures ParseLabel("The answer is B.", 4) == -1
  {
    DigitFreeReply("The answer is B.", 4);
  }
}
