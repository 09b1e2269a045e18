/**
 * The `sa_flags` word of a kernel signal-action record and the named flag
 * bits the direct-kernel signal backend uses (`SA_RESTART`, `SA_ONSTACK`,
 * `SA_SIGINFO`, `SA_RESTORER`).
 *
 * The word is a 64-bit `c_ulong`. It is represented here by the set of the
 * positions of its 1 bits, so that bitwise `|` is set union, `&` is
 * intersection and `& !m` is set difference; the Rust `sigaction` does
 * nothing else to the word. The values of the four flag constants come from the kernel
 * headers; the model does not fix them, it only asks that they be four
 * distinct single bits (`FlagLayout.Valid`).
 */
module SigFlags {

  /** A bit position in the 64-bit flags word. */
  type BitIndex = i: int | 0 <= i < 64

  /** A flags word, as the set of positions of its 1 bits. */
  type Word = set<BitIndex>

  /** The named flags a caller can set, plus the one the backend injects. */
  datatype Flag = Restart | OnStack | SigInfo | Restorer

  /** The bit position of each of `SA_RESTART`, `SA_ONSTACK`, `SA_SIGINFO` and `SA_RESTORER`. */
  datatype FlagLayout = FlagLayout(restart: BitIndex, onstack: BitIndex, siginfo: BitIndex, restorer: BitIndex)
  {
    /** Every named flag is its own bit. */
    predicate Valid() {
      && restart != onstack && restart != siginfo && restart != restorer
      && onstack != siginfo && onstack != restorer
      && siginfo != restorer
    }

    function Pos(f: Flag): BitIndex {
      match f
      case Restart => restart
      case OnStack => onstack
      case SigInfo => siginfo
      case Restorer => restorer
    }

    /**
     * The constant a caller ORs in to request `f`: a word with that one bit,
     * which in a valid layout is the bit of no other named flag.
     */
    function Mask(f: Flag): (m: Word)
      ensures Pos(f) in m
      ensures Valid() ==> forall g: Flag :: g != f ==> Pos(g) !in m
    {
      {Pos(f)}
    }
  }

  /**
   * Does `f` have the named flag set? This is the Rust `sigaction`'s test
   * `flags & SA_SIGINFO == SA_SIGINFO`, for any named flag.
   */
  function Has(l: FlagLayout, f: Word, fl: Flag): (b: bool)
    ensures b <==> l.Pos(fl) in f
  {
    f * l.Mask(fl) == l.Mask(fl)
  }

  /** The bits of every named flag. */
  function Named(l: FlagLayout): Word {
    l.Mask(Restart) + l.Mask(OnStack) + l.Mask(SigInfo) + l.Mask(Restorer)
  }

  /**
   * The flags word a caller builds by OR-ing the named constants in `fs`,
   * as in `SA_RESTART | SA_SIGINFO`.
   */
  function Encode(l: FlagLayout, fs: seq<Flag>): Word
  {
    if |fs| == 0 then {} else l.Mask(fs[0]) + Encode(l, fs[1..])
  }

  /** The named flags set in `f`. */
  function Decode(l: FlagLayout, f: Word): (s: set<Flag>)
    ensures forall fl: Flag :: fl in s <==> l.Pos(fl) in f
  {
    set fl: Flag | fl in {Restart, OnStack, SigInfo, Restorer} && Has(l, f, fl)
  }

  /** A word built from named constants sets no bit outside the named flags. */
  lemma {:induction false} EncodeWithinNamed(l: FlagLayout, fs: seq<Flag>)
    ensures Encode(l, fs) <= Named(l)
  {
    if |fs| != 0 {
      EncodeWithinNamed(l, fs[1..]);
      assert l.Mask(fs[0]) <= Named(l);
    }
  }

  /** With distinct flag bits, a named flag is set in `Encode(fs)` exactly when it is listed. */
  lemma {:induction false} EncodeHas(l: FlagLayout, fs: seq<Flag>, fl: Flag)
    requires l.Valid()
    ensures Has(l, Encode(l, fs), fl) <==> fl in fs
  {
    if |fs| != 0 {
      EncodeHas(l, fs[1..], fl);
      assert fs == [fs[0]] + fs[1..];
    }
  }

  /** Decoding what a caller encoded gives back the set of flags it named. */
  lemma DecodeEncode(l: FlagLayout, fs: seq<Flag>)
    requires l.Valid()
    ensures Decode(l, Encode(l, fs)) == set fl | fl in fs
  {
    var named := set fl | fl in fs;
    forall fl: Flag
      ensures fl in Decode(l, Encode(l, fs)) <==> fl in named
    {
      EncodeHas(l, fs, fl);
    }
  }

  /** Encoding what was decoded gives back the word, for a word that only holds named flags. */
  lemma EncodeDecode(l: FlagLayout, f: Word, fs: seq<Flag>)
    requires l.Valid()
    requires f <= Named(l)
    requires forall fl: Flag :: fl in fs <==> fl in Decode(l, f)
    ensures Encode(l, fs) == f
  {
    EncodeWithinNamed(l, fs);
    forall p | p in Named(l)
      ensures p in Encode(l, fs) <==> p in f
    {
      var fl :| fl in {Restart, OnStack, SigInfo, Restorer} && l.Pos(fl) == p;
      EncodeHas(l, fs, fl);
    }
  }

  /** OR-ing in one more named constant is the same as listing it once more. */
  lemma {:induction false} EncodeAppend(l: FlagLayout, fs: seq<Flag>, fl: Flag)
    ensures Encode(l, fs + [fl]) == Encode(l, fs) + l.Mask(fl)
  {
    if |fs| != 0 {
      assert (fs + [fl])[1..] == fs[1..] + [fl];
      EncodeAppend(l, fs[1..], fl);
    } else {
      assert (fs + [fl])[1..] == [];
    }
  }
}
