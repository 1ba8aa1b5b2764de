/** Sprite frame storage: builds the file name of every frame, keeps the loaded
    frames in an array indexed by frame number, and answers bounds-checked lookups. */
module CharacterSprites {

  datatype Option<T> = None | Some(value: T)

  /** A loaded image. Pixel data is not modelled; the token records the file it was
      loaded from. A Java null slot is None. */
  datatype Image = Image(filename: string)

  predicate IsDigit(c: char)
  {
    '0' <= c <= '9'
  }

  predicate AllDigits(s: string)
  {
    forall i :: 0 <= i < |s| ==> IsDigit(s[i])
  }

  function DigitChar(d: nat): (c: char)
    requires d < 10
    ensures IsDigit(c) && c as int - '0' as int == d
  {
    (d + '0' as int) as char
  }

  /** Java's `%d` for a non-negative number: its decimal digits, with no leading zero. */
  function Decimal(n: nat): (r: string)
    ensures |r| >= 1 && AllDigits(r)
    ensures |r| > 1 ==> r[0] != '0'
    decreases n
  {
    if n < 10 then [DigitChar(n)] else Decimal(n / 10) + [DigitChar(n % 10)]
  }

  /** The number a string of digits denotes. */
  function ParseDecimal(s: string): nat
    requires AllDigits(s)
    decreases |s|
  {
    if s == [] then 0
    else ParseDecimal(s[..|s| - 1]) * 10 + (s[|s| - 1] as int - '0' as int)
  }

  lemma {:induction false} DecimalRoundTrip(n: nat)
    ensures ParseDecimal(Decimal(n)) == n
    decreases n
  {
    if n >= 10 {
      var d := Decimal(n);
      assert d[..|d| - 1] == Decimal(n / 10);
      DecimalRoundTrip(n / 10);
    }
  }

  function Zeros(k: nat): (z: string)
    ensures |z| == k && forall i :: 0 <= i < k ==> z[i] == '0'
  {
    seq(k, _ => '0')
  }

  /** Java's `%03d` applied to an already formatted number: zeros on the left up to
      three characters. */
  function ZeroPad3(digits: string): (r: string)
    ensures |r| == if |digits| >= 3 then |digits| else 3
    ensures r[|r| - |digits|..] == digits
    ensures forall i :: 0 <= i < |r| - |digits| ==> r[i] == '0'
  {
    if |digits| >= 3 then digits else Zeros(3 - |digits|) + digits
  }

  lemma {:induction false} LeadingZerosAddNothing(k: nat, s: string)
    requires AllDigits(s)
    ensures AllDigits(Zeros(k) + s) && ParseDecimal(Zeros(k) + s) == ParseDecimal(s)
    decreases |s|, k
  {
    var z := Zeros(k) + s;
    assert AllDigits(z) by {
      forall i | 0 <= i < |z| ensures IsDigit(z[i]) {
        if i >= k { assert z[i] == s[i - k]; }
      }
    }
    if s == [] {
      if k > 0 {
        assert z[..|z| - 1] == Zeros(k - 1) + [];
        LeadingZerosAddNothing(k - 1, []);
      }
    } else {
      assert z[..|z| - 1] == Zeros(k) + s[..|s| - 1];
      LeadingZerosAddNothing(k, s[..|s| - 1]);
    }
  }

  /** The padded form is at least three digits long and no longer than it must be, has
      the plain form at its right end, only zeros before it, and still denotes n. */
  lemma PaddedDecimalDenotesNumber(n: nat)
    ensures var p := ZeroPad3(Decimal(n));
      && |p| >= 3 && (|p| == 3 || p[0] != '0')
      && AllDigits(p) && ParseDecimal(p) == n
      && p[|p| - |Decimal(n)|..] == Decimal(n)
      && forall i :: 0 <= i < |p| - |Decimal(n)| ==> p[i] == '0'
  {
    DecimalRoundTrip(n);
    if |Decimal(n)| < 3 {
      LeadingZerosAddNothing(3 - |Decimal(n)|, Decimal(n));
    }
  }

  /** The name of the file frame fileNumber is loaded from. */
  function FrameFileName(spritePath: string, filePrefix: string, fileNumber: nat, usePadding: bool): (r: string)
    ensures |r| >= |spritePath| + |filePrefix| + 5
    ensures r[..|spritePath| + |filePrefix|] == spritePath + filePrefix
    ensures r[|r| - 4..] == ".png"
  {
    spritePath + filePrefix + (if usePadding then ZeroPad3(Decimal(fileNumber)) else Decimal(fileNumber)) + ".png"
  }

  /** The file name is the directory, the prefix, a run of digits that denotes the frame
      number, and ".png"; with padding the digits are exactly three, or more with no
      leading zero; without it they carry no leading zero. */
  lemma FileNameEncodesFrameNumber(spritePath: string, filePrefix: string, fileNumber: nat, usePadding: bool)
    ensures var name := FrameFileName(spritePath, filePrefix, fileNumber, usePadding);
      var digits := name[|spritePath| + |filePrefix|..|name| - 4];
      && |name| >= |spritePath| + |filePrefix| + 5
      && name == spritePath + filePrefix + digits + ".png"
      && AllDigits(digits) && ParseDecimal(digits) == fileNumber
      && (usePadding ==> |digits| >= 3 && (|digits| == 3 || digits[0] != '0'))
      && (!usePadding ==> |digits| == 1 || digits[0] != '0')
  {
    var name := FrameFileName(spritePath, filePrefix, fileNumber, usePadding);
    var number := if usePadding then ZeroPad3(Decimal(fileNumber)) else Decimal(fileNumber);
    PaddedDecimalDenotesNumber(fileNumber);
    DecimalRoundTrip(fileNumber);
    assert name[|spritePath| + |filePrefix|..|name| - 4] == number;
  }

  class CharacterSprite {
    var spriteFrames: array<Option<Image>>
    const spritePath: string
    const filePrefix: string
    const frameCount: int
    const startIndex: int
    const usePadding: bool

    /** What slot i of the frame array holds once loading is done. */
    function Slot(i: int): Option<Image>
      requires 0 <= startIndex
    {
      if startIndex <= i < startIndex + frameCount
      then Some(Image(FrameFileName(spritePath, filePrefix, i, usePadding)))
      else None
    }

    /** The array has a slot for every frame number up to the last, and frame n is
        stored at index n. */
    ghost predicate Valid()
      reads this, spriteFrames
    {
      && 0 <= startIndex && 0 <= startIndex + frameCount
      && spriteFrames.Length == startIndex + frameCount
      && forall i :: 0 <= i < spriteFrames.Length ==> spriteFrames[i] == Slot(i)
    }

    constructor (spritePath: string, filePrefix: string, frameCount: int, startIndex: int, usePadding: bool)
      requires 0 <= startIndex && 0 <= startIndex + frameCount
      ensures this.spritePath == spritePath && this.filePrefix == filePrefix
      ensures this.frameCount == frameCount && this.startIndex == startIndex
      ensures this.usePadding == usePadding
      ensures Valid() && fresh(spriteFrames)
    {
      this.spritePath := spritePath;
      this.filePrefix := filePrefix;
      this.frameCount := frameCount;
      this.startIndex := startIndex;
      this.usePadding := usePadding;
      spriteFrames := new Option<Image>[0];
      new;
      LoadSpriteFrames();
    }

    /** Allocates one slot per frame number from 0 to the last and loads frame
        startIndex + i into slot startIndex + i; slots below startIndex stay empty. */
    method LoadSpriteFrames()
      requires 0 <= startIndex && 0 <= startIndex + frameCount
      modifies this
      ensures Valid() && fresh(spriteFrames)
    {
      spriteFrames := new Option<Image>[startIndex + frameCount](_ => None);
      var i := 0;
      while i < frameCount
        invariant 0 <= i && (frameCount >= 0 ==> i <= frameCount)
        invariant fresh(spriteFrames) && spriteFrames.Length == startIndex + frameCount
        invariant forall j :: 0 <= j < spriteFrames.Length ==>
          spriteFrames[j] == if j < startIndex + i then Slot(j) else None
      {
        var filename: string;
        var fileNumber := startIndex + i;
        if usePadding {
          filename := spritePath + filePrefix + ZeroPad3(Decimal(fileNumber)) + ".png";
        } else {
          filename := spritePath + filePrefix + Decimal(fileNumber) + ".png";
        }
        spriteFrames[fileNumber] := Some(Image(filename));
        i := i + 1;
      }
    }

    /** Any index may be asked for: frames that were loaded come back, every other
        index, inside the array or not, gives None. */
    function GetFrame(index: int): (r: Option<Image>)
      reads this, spriteFrames
      requires Valid()
      ensures r.Some? <==> startIndex <= index < startIndex + frameCount
      ensures r.Some? ==> r.value.filename == FrameFileName(spritePath, filePrefix, index, usePadding)
    {
      if 0 <= index < spriteFrames.Length then spriteFrames[index] else None
    }

    /** The number of frames given at construction, returned unchanged even when it is
        negative: that many consecutive frames are loaded, ending with the last slot of
        the array, and none when it is not positive. */
    function GetFrameCount(): (r: int)
      reads this, spriteFrames
      requires Valid()
      ensures spriteFrames.Length == startIndex + r
      ensures forall i :: startIndex <= i < startIndex + r ==> GetFrame(i).Some?
      ensures GetFrame(startIndex + r) == None
    {
      frameCount
    }

    /** The first frame number given at construction: no frame is stored below it, and
        (when there are frames) the first one is stored at it. */
    function GetStartIndex(): (r: int)
      reads this, spriteFrames
      requires Valid()
      ensures r >= 0
      ensures forall i :: 0 <= i < r ==> GetFrame(i) == None
      ensures frameCount > 0 ==> GetFrame(r).Some?
    {
      startIndex
    }
  }
}
