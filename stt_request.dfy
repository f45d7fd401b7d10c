/**
 * `google_stt_raw_bytes` in app.py: the encoding is picked from the first 12 bytes of
 * the audio by an ordered chain of magic-byte tests, and a fixed-shape request for
 * the Speech API is assembled around it with the whole buffer in base 64.
 */
module SttRequest {
  import opened Wrappers
  import Base64

  /** The four encodings the detection chain can choose. */
  datatype Encoding = LINEAR16 | AMR_WB | WEBM_OPUS | MP3 {
    /** The text the request carries for this encoding. */
    function Name(): string
    {
      match this
      case LINEAR16 => "LINEAR16"
      case AMR_WB => "AMR_WB"
      case WEBM_OPUS => "WEBM_OPUS"
      case MP3 => "MP3"
    }
  }

  /** Different encodings are sent under different names. */
  lemma NameInjective(e1: Encoding, e2: Encoding)
    requires e1.Name() == e2.Name()
    ensures e1 == e2
  {
  }

  /** The `config` object of the request; `encoding` is the name of the detected encoding. */
  datatype RecognitionConfig = RecognitionConfig(
    encoding: string,
    sampleRateHertz: int,
    languageCode: string,
    enableAutomaticPunctuation: bool)

  /** The whole request body: `config` and `audio.content`. */
  datatype RecognizeRequest = RecognizeRequest(config: RecognitionConfig, content: string)

  const HeaderLength: nat := 12
  const SampleRateHertz: int := 16000
  const LanguageCode: string := "es-PE"

  /** b'RIFF' */
  const RiffMagic: seq<byte> := [0x52, 0x49, 0x46, 0x46]
  /** b'WAVE' */
  const WaveTag: seq<byte> := [0x57, 0x41, 0x56, 0x45]
  /** b'#!AMR-WB' */
  const AmrWbMagic: seq<byte> := [0x23, 0x21, 0x41, 0x4D, 0x52, 0x2D, 0x57, 0x42]
  /** The EBML magic number that opens a WebM file. */
  const EbmlMagic: seq<byte> := [0x1A, 0x45, 0xDF, 0xA3]

  /** `audio_bytes[:12]`: the first 12 bytes, or all of a shorter buffer. */
  function Header(audio: seq<byte>): (h: seq<byte>)
    ensures |h| == if |audio| < HeaderLength then |audio| else HeaderLength
    ensures h == audio[..|h|]
  {
    if |audio| <= HeaderLength then audio else audio[..HeaderLength]
  }

  /** True when `needle` occurs in `haystack` starting at index `i`. */
  predicate OccursAt(haystack: seq<byte>, needle: seq<byte>, i: int)
  {
    0 <= i && i + |needle| <= |haystack| && haystack[i..i + |needle|] == needle
  }

  /** `needle in haystack` for byte strings: a search from the left. */
  function Contains(haystack: seq<byte>, needle: seq<byte>): (r: bool)
    ensures r <==> exists i :: OccursAt(haystack, needle, i)
    decreases |haystack|
  {
    if |haystack| < |needle| then false
    else if haystack[..|needle|] == needle then
      assert OccursAt(haystack, needle, 0);
      true
    else
      var rest := Contains(haystack[1..], needle);
      assert forall i :: OccursAt(haystack[1..], needle, i) ==> OccursAt(haystack, needle, i + 1);
      assert forall i :: OccursAt(haystack, needle, i) && i > 0 ==> OccursAt(haystack[1..], needle, i - 1);
      rest
  }

  /** The detection chain of lines 31-43: first match wins, MP3 is the fallback. */
  function DetectEncoding(audio: seq<byte>): (e: Encoding)
  {
    var header := Header(audio);
    if StartsWith(header, RiffMagic) && Contains(header, WaveTag) then LINEAR16
    else if StartsWith(header, AmrWbMagic) then AMR_WB
    else if StartsWith(header, EbmlMagic) then WEBM_OPUS
    else MP3
  }

  /** The payload of lines 48-60. */
  function BuildRequest(audio: seq<byte>): (r: RecognizeRequest)
  {
    RecognizeRequest(
      RecognitionConfig(DetectEncoding(audio).Name(), SampleRateHertz, LanguageCode, true),
      Base64.Encode(audio))
  }

  // ---------------------------------------------------------------------------
  // What detection decides
  // ---------------------------------------------------------------------------

  /** The header is a prefix of the buffer, so its own prefixes are the buffer's. */
  lemma HeaderPrefix(audio: seq<byte>, p: seq<byte>)
    requires |p| <= HeaderLength
    ensures StartsWith(Header(audio), p) <==> StartsWith(audio, p)
  {
  }

  /**
   * LINEAR16 exactly when the buffer starts with RIFF and WAVE occurs inside the first
   * 12 bytes; as RIFF fills bytes 0-3, that occurrence starts at one of bytes 4 to 8,
   * not only at byte 8 where a WAV file has it.
   */
  lemma DetectLinear16(audio: seq<byte>)
    ensures DetectEncoding(audio) == LINEAR16 <==>
      StartsWith(audio, RiffMagic) && exists i :: 4 <= i <= 8 && OccursAt(audio, WaveTag, i)
  {
    var h := Header(audio);
    HeaderPrefix(audio, RiffMagic);
    if StartsWith(audio, RiffMagic) {
      forall i | OccursAt(h, WaveTag, i)
        ensures 4 <= i <= 8 && OccursAt(audio, WaveTag, i)
      {
        // a `W` cannot sit inside `RIFF`
        assert h[i] == WaveTag[0];
        assert forall k :: 0 <= k < 4 ==> h[k] == RiffMagic[k];
        assert h[i..i + 4] == audio[i..i + 4];
      }
      forall i | 4 <= i <= 8 && OccursAt(audio, WaveTag, i)
        ensures OccursAt(h, WaveTag, i)
      {
        assert h[i..i + 4] == audio[i..i + 4];
      }
    }
  }

  /** AMR_WB exactly when the buffer starts with `#!AMR-WB`. */
  lemma DetectAmrWb(audio: seq<byte>)
    ensures DetectEncoding(audio) == AMR_WB <==> StartsWith(audio, AmrWbMagic)
  {
    HeaderPrefix(audio, AmrWbMagic);
    HeaderPrefix(audio, RiffMagic);
    if StartsWith(audio, AmrWbMagic) {
      assert audio[0] == 0x23;
    }
  }

  /** WEBM_OPUS exactly when the buffer starts with the EBML magic number. */
  lemma DetectWebmOpus(audio: seq<byte>)
    ensures DetectEncoding(audio) == WEBM_OPUS <==> StartsWith(audio, EbmlMagic)
  {
    HeaderPrefix(audio, AmrWbMagic);
    HeaderPrefix(audio, RiffMagic);
    HeaderPrefix(audio, EbmlMagic);
    if StartsWith(audio, EbmlMagic) {
      assert audio[0] == 0x1A;
    }
  }

  /**
   * MP3 exactly when none of the three tests matches: this covers empty and short
   * buffers and RIFF without WAVE in the header. Detection never fails.
   */
  lemma DetectMp3(audio: seq<byte>)
    ensures DetectEncoding(audio) == MP3 <==>
      !(StartsWith(audio, RiffMagic) && exists i :: 4 <= i <= 8 && OccursAt(audio, WaveTag, i))
      && !StartsWith(audio, AmrWbMagic) && !StartsWith(audio, EbmlMagic)
  {
    DetectLinear16(audio);
    DetectAmrWb(audio);
    DetectWebmOpus(audio);
  }

  /** A buffer shorter than any magic number is sent as MP3. */
  lemma ShortBufferIsMp3(audio: seq<byte>)
    requires |audio| < 4
    ensures DetectEncoding(audio) == MP3
  {
    DetectMp3(audio);
  }

  /** Only the first 12 bytes matter: bytes appended after them never change the encoding. */
  lemma DetectIgnoresTail(audio: seq<byte>, tail: seq<byte>)
    requires |audio| >= HeaderLength
    ensures DetectEncoding(audio + tail) == DetectEncoding(audio)
  {
    assert Header(audio + tail) == Header(audio);
  }

  /** Two buffers that agree on their first 12 bytes get the same encoding. */
  lemma DetectSameHeader(a: seq<byte>, b: seq<byte>)
    requires |a| >= HeaderLength && |b| >= HeaderLength
    requires forall i :: 0 <= i < HeaderLength ==> a[i] == b[i]
    ensures DetectEncoding(a) == DetectEncoding(b)
  {
    assert Header(a) == Header(b);
  }

  // ---------------------------------------------------------------------------
  // What the request carries
  // ---------------------------------------------------------------------------

  /**
   * Whatever the audio, the request asks for 16000 Hz, es-PE and automatic punctuation
   * with the detected encoding, and `audio.content` decodes to the entire buffer.
   */
  lemma RequestShape(audio: seq<byte>)
    ensures BuildRequest(audio).config.encoding == DetectEncoding(audio).Name()
    ensures BuildRequest(audio).config.sampleRateHertz == 16000
    ensures BuildRequest(audio).config.languageCode == "es-PE"
    ensures BuildRequest(audio).config.enableAutomaticPunctuation
    ensures Base64.Decode(BuildRequest(audio).content) == Some(audio)
    ensures |BuildRequest(audio).content| == 4 * ((|audio| + 2) / 3)
  {
    Base64.DecodeEncode(audio);
  }

  /** Two buffers give the same request only when they are the same buffer. */
  lemma RequestDeterminesAudio(a: seq<byte>, b: seq<byte>)
    requires BuildRequest(a) == BuildRequest(b)
    ensures a == b
  {
    Base64.EncodeInjective(a, b);
  }

  /** The first 16 bytes of a WAV file, `RIFF____WAVEfmt `, are sent as 16 kHz LINEAR16. */
  lemma WavExample()
    ensures DetectEncoding([0x52, 0x49, 0x46, 0x46, 0x5F, 0x5F, 0x5F, 0x5F,
                            0x57, 0x41, 0x56, 0x45, 0x66, 0x6D, 0x74, 0x20]) == LINEAR16
    ensures BuildRequest([0x52, 0x49, 0x46, 0x46, 0x5F, 0x5F, 0x5F, 0x5F,
                          0x57, 0x41, 0x56, 0x45, 0x66, 0x6D, 0x74, 0x20]).config.sampleRateHertz == 16000
    ensures BuildRequest([0x52, 0x49, 0x46, 0x46, 0x5F, 0x5F, 0x5F, 0x5F,
                          0x57, 0x41, 0x56, 0x45, 0x66, 0x6D, 0x74, 0x20]).config.encoding == "LINEAR16"
  {
    var a: seq<byte> := [0x52, 0x49, 0x46, 0x46, 0x5F, 0x5F, 0x5F, 0x5F,
                         0x57, 0x41, 0x56, 0x45, 0x66, 0x6D, 0x74, 0x20];
    DetectLinear16(a);
    assert OccursAt(a, WaveTag, 8);
  }
}
