/** PortAudio settings of the application (PA_audioSettings): a buffer
    size and a sample rate, the text the preference dialog shows for them,
    and the one-line file they are saved to. */
module PASettings {
  import opened Optional
  import opened Decimal

  const DefaultBufferSize: int := 512
  const DefaultSampleRate: int := 44100

  datatype Settings = Settings(bufferSize: int, sampleRate: int)

  /** What an `AudioSettings*` may point to: PortAudio settings, or the
      settings of another audio architecture. */
  datatype AnySettings =
    | PortAudio(pa: Settings)
    | OtherArchitecture

  /** Settings storeVisualSettings can leave behind: neither field is 0. */
  predicate Valid(s: Settings) {
    s.bufferSize != 0 && s.sampleRate != 0
  }

  /** Text of one dialog field turned into a value: the integer it spells,
      unless it spells none or spells 0, in which case `default`. */
  function FieldValue(text: string, default: int): (v: int)
    requires default != 0
    ensures v != 0
    ensures ParseInt(text).None? ==> v == default
    ensures ParseInt(text) == Some(0) ==> v == default
    ensures forall n :: ParseInt(text) == Some(n) && n != 0 ==> v == n
  {
    match ParseInt(text)
    case Some(n) => if n == 0 then default else n
    case None => default
  }

  /** Real to visual: the texts shown in the buffer-size and sample-rate
      fields. */
  function VisualTexts(s: Settings): (texts: (string, string))
    ensures ParseInt(texts.0) == Some(s.bufferSize)
    ensures ParseInt(texts.1) == Some(s.sampleRate)
  {
    ParseIntRoundTrip(s.bufferSize);
    ParseIntRoundTrip(s.sampleRate);
    (IntToString(s.bufferSize), IntToString(s.sampleRate))
  }

  /** Visual to real: the dialog texts become settings, with 512 and 44100
      standing in for a field that is not a nonzero integer. */
  function StoreVisualSettings(bufText: string, rateText: string): (s: Settings)
    ensures Valid(s)
    ensures ParseInt(bufText).None? || ParseInt(bufText) == Some(0) ==> s.bufferSize == DefaultBufferSize
    ensures ParseInt(rateText).None? || ParseInt(rateText) == Some(0) ==> s.sampleRate == DefaultSampleRate
    ensures forall n :: ParseInt(bufText) == Some(n) && n != 0 ==> s.bufferSize == n
    ensures forall n :: ParseInt(rateText) == Some(n) && n != 0 ==> s.sampleRate == n
  {
    Settings(FieldValue(bufText, DefaultBufferSize), FieldValue(rateText, DefaultSampleRate))
  }

  /** Showing valid settings and storing them back changes nothing. */
  lemma VisualRoundTrip(s: Settings)
    requires Valid(s)
    ensures StoreVisualSettings(VisualTexts(s).0, VisualTexts(s).1) == s
  {
  }

  /** Storing is idempotent: once stored, showing and storing again is a
      no-op, whatever the user typed. */
  lemma StoreVisualIdempotent(bufText: string, rateText: string)
    ensures var s := StoreVisualSettings(bufText, rateText);
            StoreVisualSettings(VisualTexts(s).0, VisualTexts(s).1) == s
  {
    VisualRoundTrip(StoreVisualSettings(bufText, rateText));
  }

  /** The saved file: sample rate, one space, buffer size. */
  function WriteSettings(s: Settings): (text: string)
    ensures var i := SpaceIndex(text);
      && i < |text|
      && ParseInt(text[..i]) == Some(s.sampleRate)
      && ParseInt(text[i + 1..]) == Some(s.bufferSize)
  {
    var a := IntToString(s.sampleRate);
    var b := IntToString(s.bufferSize);
    SpaceIndexAfterNumber(a, b);
    assert (a + " " + b)[..|a|] == a;
    assert (a + " " + b)[|a| + 1..] == b;
    ParseIntRoundTrip(s.sampleRate);
    ParseIntRoundTrip(s.bufferSize);
    a + " " + b
  }

  /** Position of the first space of `t`, or |t| when it has none. */
  function SpaceIndex(t: string): (i: nat)
    ensures i <= |t|
    ensures i < |t| ==> t[i] == ' '
    ensures ' ' !in t[..i]
  {
    if |t| == 0 || t[0] == ' ' then 0 else 1 + SpaceIndex(t[1..])
  }

  lemma {:induction false} SpaceIndexAfterNumber(a: string, b: string)
    requires ' ' !in a
    ensures SpaceIndex(a + " " + b) == |a|
  {
    if |a| > 0 {
      assert (a + " " + b)[1..] == a[1..] + " " + b;
      SpaceIndexAfterNumber(a[1..], b);
    }
  }

  /** `QTextStream >> int` on one field: the integer it spells, or 0 when
      it spells none. */
  function ReadField(text: string): (v: int)
    ensures ParseInt(text).None? ==> v == 0
    ensures forall n :: ParseInt(text) == Some(n) ==> v == n
  {
    ParseInt(text).GetOr(0)
  }

  /** readSettings: `saved` is the content of the settings file when it
      exists and can be opened. Without one the defaults are taken.
      Otherwise the sample rate is read, then the buffer size; a field
      that is not an integer, or is missing, is read as 0. A sample rate
      that is not a number is left unread, so the buffer size read meets
      the same text and is 0 too. */
  function ReadSettings(saved: Option<string>): (s: Settings)
    ensures saved.None? ==> s == Settings(DefaultBufferSize, DefaultSampleRate)
    // a file without a separator holds at most the sample rate
    ensures saved.Some? && ' ' !in saved.value ==> s == Settings(0, ReadField(saved.value))
  {
    match saved
    case None => Settings(DefaultBufferSize, DefaultSampleRate)
    case Some(text) =>
      var i := SpaceIndex(text);
      if ParseInt(text[..i]).None? then Settings(0, 0)
      else if i == |text| then Settings(0, ReadField(text))
      else Settings(ReadField(text[i + 1..]), ReadField(text[..i]))
  }

  /** The file format as readSettings reads it: the sample rate before the
      first space, the buffer size after it; when the sample rate is not a
      number, both are 0. */
  lemma ReadFields(rate: string, buf: string)
    requires ' ' !in rate
    ensures ParseInt(rate).Some? ==>
              ReadSettings(Some(rate + " " + buf)) == Settings(ReadField(buf), ParseInt(rate).value)
    ensures ParseInt(rate).None? ==> ReadSettings(Some(rate + " " + buf)) == Settings(0, 0)
  {
    SpaceIndexAfterNumber(rate, buf);
    assert (rate + " " + buf)[..|rate|] == rate;
    assert (rate + " " + buf)[|rate| + 1..] == buf;
  }

  /** An empty settings file stores 0 in both fields: unlike
      storeVisualSettings, readSettings does not guarantee valid settings. */
  lemma EmptyFileReadsZero()
    ensures ReadSettings(Some("")) == Settings(0, 0)
    ensures !Valid(ReadSettings(Some("")))
  {
  }

  /** Writing then reading the settings file gives back the same pair. */
  lemma WriteReadRoundTrip(s: Settings)
    ensures ReadSettings(Some(WriteSettings(s))) == s
  {
    var a := IntToString(s.sampleRate);
    var b := IntToString(s.bufferSize);
    ReadFields(a, b);
    ParseIntRoundTrip(s.sampleRate);
    ParseIntRoundTrip(s.bufferSize);
  }

  /** isEqual: the other object is PortAudio settings with the same buffer
      size and sample rate (the dynamic_cast fails for other architectures). */
  function IsEqual(self: Settings, other: AnySettings): (eq: bool)
    ensures eq <==> other.PortAudio? && other.pa.bufferSize == self.bufferSize
                    && other.pa.sampleRate == self.sampleRate
  {
    match other
    case PortAudio(pa) => pa.bufferSize == self.bufferSize && pa.sampleRate == self.sampleRate
    case OtherArchitecture => false
  }

  /** get_ArchiName of PortAudio settings. */
  function ArchiName(s: Settings): (name: string)
    ensures name == "PortAudio"
  {
    "PortAudio"
  }

  /** isEqual is an equivalence among PortAudio settings, coincides with
      equality of the pairs, and only ever holds of PortAudio settings. */
  lemma IsEqualProperties(x: Settings, y: Settings, z: Settings, other: AnySettings)
    ensures IsEqual(x, PortAudio(x))
    ensures IsEqual(x, PortAudio(y)) <==> x == y
    ensures IsEqual(x, PortAudio(y)) ==> IsEqual(y, PortAudio(x))
    ensures IsEqual(x, PortAudio(y)) && IsEqual(y, PortAudio(z)) ==> IsEqual(x, PortAudio(z))
    ensures IsEqual(x, other) ==> other.PortAudio?
  {
  }
}
