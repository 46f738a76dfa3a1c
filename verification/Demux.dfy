/** Decoding of Docker's multiplexed attach stream (internal/docker/runtime.go, demuxDockerStream;
    Docker Engine API, "Attach to a container", section "Stream format"). */
module Demux {

  newtype byte = x: int | 0 <= x < 256

  datatype Stream = Stdout | Stderr

  /** A payload whose length fits the four size bytes. */
  datatype Frame = Frame(stream: Stream, payload: seq<byte>)

  predicate Fits(frames: seq<Frame>) {
    forall i | 0 <= i < |frames| :: |frames[i].payload| < 0x1_0000_0000
  }

  // ---- The stream format ----

  function StreamByte(s: Stream): byte {
    match s
    case Stdout => 1
    case Stderr => 2
  }

  /** Four bytes, most significant first. */
  function SizeBytes(n: nat): seq<byte>
    requires n < 0x1_0000_0000
  {
    [(n / 0x100_0000) as byte, (n / 0x1_0000 % 0x100) as byte, (n / 0x100 % 0x100) as byte, (n % 0x100) as byte]
  }

  function Header(f: Frame): seq<byte>
    requires |f.payload| < 0x1_0000_0000
  {
    [StreamByte(f.stream), 0, 0, 0] + SizeBytes(|f.payload|)
  }

  function Encode(frames: seq<Frame>): seq<byte>
    requires Fits(frames)
  {
    if frames == [] then [] else Header(frames[0]) + frames[0].payload + Encode(frames[1..])
  }

  function Payloads(frames: seq<Frame>): seq<byte> {
    if frames == [] then [] else frames[0].payload + Payloads(frames[1..])
  }

  function Of(frames: seq<Frame>, stream: Stream): seq<byte> {
    if frames == [] then []
    else (if frames[0].stream == stream then frames[0].payload else []) + Of(frames[1..], stream)
  }

  // ---- Reading one header ----

  predicate Framed(input: seq<byte>) {
    |input| >= 8 && (input[0] == 1 || input[0] == 2) && input[1] == 0 && input[2] == 0 && input[3] == 0
  }

  function Size(input: seq<byte>): nat
    requires |input| >= 8
  {
    (input[4] as nat) * 0x100_0000 + (input[5] as nat) * 0x1_0000 + (input[6] as nat) * 0x100 + (input[7] as nat)
  }

  function First(input: seq<byte>): Frame
    requires Framed(input) && |input| >= 8 + Size(input)
  {
    Frame(if input[0] == 1 then Stdout else Stderr, input[8..8 + Size(input)])
  }

  lemma {:induction false} SecondByte(n: nat)
    ensures n / 0x1_0000 == n / 0x100 / 0x100
  {
    var a, r := n / 0x100, n % 0x100;
    var b, t := a / 0x100, a % 0x100;
    assert n == 0x100 * a + r && a == 0x100 * b + t;
    assert n == 0x1_0000 * b + (0x100 * t + r) && 0 <= 0x100 * t + r < 0x1_0000;
  }

  lemma {:induction false} ThirdByte(n: nat)
    ensures n / 0x100_0000 == n / 0x1_0000 / 0x100
  {
    var a, r := n / 0x1_0000, n % 0x1_0000;
    var b, t := a / 0x100, a % 0x100;
    assert n == 0x1_0000 * a + r && a == 0x100 * b + t;
    assert n == 0x100_0000 * b + (0x1_0000 * t + r) && 0 <= 0x1_0000 * t + r < 0x100_0000;
  }

  lemma {:induction false} Recombine(n: nat)
    ensures n / 0x100_0000 * 0x100_0000 + n / 0x1_0000 % 0x100 * 0x1_0000 + n / 0x100 % 0x100 * 0x100 + n % 0x100 == n
  {
    var a, b, c := n / 0x100, n / 0x1_0000, n / 0x100_0000;
    SecondByte(n);
    ThirdByte(n);
    assert n == 0x100 * a + n % 0x100;
    assert a == 0x100 * b + a % 0x100;
    assert b == 0x100 * c + b % 0x100;
  }

  lemma {:induction false} SizeRoundTrip(n: nat)
    requires n < 0x1_0000_0000
    ensures forall input: seq<byte> :: |input| >= 8 && input[4..8] == SizeBytes(n) ==> Size(input) == n
  {
    forall input: seq<byte> | |input| >= 8 && input[4..8] == SizeBytes(n) ensures Size(input) == n {
      assert input[4] == input[4..8][0] && input[5] == input[4..8][1];
      assert input[6] == input[4..8][2] && input[7] == input[4..8][3];
      Recombine(n);
    }
  }

  lemma {:induction false} Digits(a: nat, b: nat, c: nat, d: nat)
    requires a < 0x100 && b < 0x100 && c < 0x100 && d < 0x100
    ensures var n := a * 0x100_0000 + b * 0x1_0000 + c * 0x100 + d;
            && n < 0x1_0000_0000
            && n / 0x100_0000 == a && n / 0x1_0000 % 0x100 == b && n / 0x100 % 0x100 == c && n % 0x100 == d
  {
    var n := a * 0x100_0000 + b * 0x1_0000 + c * 0x100 + d;
    assert n == 0x100 * (0x1_0000 * a + 0x100 * b + c) + d;
    assert n / 0x100 == 0x1_0000 * a + 0x100 * b + c;
    assert n == 0x1_0000 * (0x100 * a + b) + (0x100 * c + d);
    assert n / 0x1_0000 == 0x100 * a + b;
  }

  lemma {:induction false} BytesRoundTrip(input: seq<byte>)
    requires |input| >= 8
    ensures Size(input) < 0x1_0000_0000 && SizeBytes(Size(input)) == input[4..8]
  {
    Digits(input[4] as nat, input[5] as nat, input[6] as nat, input[7] as nat);
  }

  /** A header followed by its payload is read as that frame, leaving the rest. */
  lemma {:induction false} FirstOfEncoded(f: Frame, rest: seq<byte>)
    requires |f.payload| < 0x1_0000_0000
    ensures var input := Header(f) + f.payload + rest;
            Framed(input) && Size(input) == |f.payload| && First(input) == f && input[8 + |f.payload|..] == rest
  {
    var input := Header(f) + f.payload + rest;
    SizeRoundTrip(|f.payload|);
    assert input[4..8] == SizeBytes(|f.payload|);
    assert input[8..8 + |f.payload|] == f.payload;
  }

  /** What is read as a frame is the encoding of that frame. */
  lemma {:induction false} FirstEncodes(input: seq<byte>)
    requires Framed(input) && |input| >= 8 + Size(input)
    ensures var f := First(input);
            |f.payload| < 0x1_0000_0000 && Header(f) + f.payload + input[8 + Size(input)..] == input
  {
    BytesRoundTrip(input);
    var f := First(input);
    assert Header(f) == input[..8];
    assert input == input[..8] + input[8..8 + Size(input)] + input[8 + Size(input)..];
  }

  /** Decoding is unique: two lists of frames with one encoding are the same list. */
  lemma {:induction false} EncodeInjective(a: seq<Frame>, b: seq<Frame>)
    requires Fits(a) && Fits(b) && Encode(a) == Encode(b)
    ensures a == b
    decreases |a|
  {
    if a != [] && b != [] {
      FirstOfEncoded(a[0], Encode(a[1..]));
      FirstOfEncoded(b[0], Encode(b[1..]));
      EncodeInjective(a[1..], b[1..]);
      assert a == [a[0]] + a[1..] && b == [b[0]] + b[1..];
    }
  }

  lemma {:induction false} EncodeAppend(frames: seq<Frame>, f: Frame)
    requires Fits(frames) && |f.payload| < 0x1_0000_0000
    ensures Fits(frames + [f]) && Encode(frames + [f]) == Encode(frames) + (Header(f) + f.payload)
    decreases |frames|
  {
    if frames == [] {
      assert [f][1..] == [] && frames + [f] == [f];
    } else {
      EncodeAppend(frames[1..], f);
      assert (frames + [f])[1..] == frames[1..] + [f];
    }
  }

  lemma {:induction false} PayloadsAppend(frames: seq<Frame>, f: Frame)
    ensures Payloads(frames + [f]) == Payloads(frames) + f.payload
    ensures forall s :: Of(frames + [f], s) == Of(frames, s) + (if f.stream == s then f.payload else [])
    decreases |frames|
  {
    if frames == [] {
      assert [f][1..] == [] && frames + [f] == [f];
    } else {
      PayloadsAppend(frames[1..], f);
      assert (frames + [f])[1..] == frames[1..] + [f];
    }
  }

  /** The bytes of a stream are the payloads and eight bytes per frame. */
  lemma {:induction false} Lengths(frames: seq<Frame>)
    requires Fits(frames)
    ensures |Of(frames, Stdout)| + |Of(frames, Stderr)| == |Payloads(frames)|
    ensures |Payloads(frames)| + 8 * |frames| == |Encode(frames)|
    decreases |frames|
  {
    if frames != [] {
      Lengths(frames[1..]);
    }
  }

  ghost predicate Encoded(input: seq<byte>) {
    exists frames :: Fits(frames) && Encode(frames) == input
  }

  /** After some frames, bytes that do not start a complete frame spoil the whole input. */
  lemma {:induction false} NotThisEncoding(frames: seq<Frame>, input: seq<byte>, other: seq<Frame>)
    requires Fits(frames) && Fits(other) && input != []
    requires !Framed(input) || |input| < 8 + Size(input)
    ensures Encode(other) != Encode(frames) + input
    decreases |frames|
  {
    if other != [] {
      FirstOfEncoded(other[0], Encode(other[1..]));
      if frames == [] {
        assert Encode(frames) + input == input;
      } else {
        var tail := Encode(frames[1..]) + input;
        FirstOfEncoded(frames[0], tail);
        assert Encode(frames) + input == Header(frames[0]) + frames[0].payload + tail;
        NotThisEncoding(frames[1..], input, other[1..]);
      }
    }
  }

  lemma {:induction false} NotEncoded(frames: seq<Frame>, input: seq<byte>)
    requires Fits(frames) && input != []
    requires !Framed(input) || |input| < 8 + Size(input)
    ensures !Encoded(Encode(frames) + input)
  {
    forall other | Fits(other) ensures Encode(other) != Encode(frames) + input {
      NotThisEncoding(frames, input, other);
    }
  }

  // ---- The decoder ----

  ghost predicate Decoded(frames: seq<Frame>, stdout: seq<byte>, stderr: seq<byte>, combined: seq<byte>) {
    stdout == Of(frames, Stdout) && stderr == Of(frames, Stderr) && combined == Payloads(frames)
  }

  lemma {:induction false} OneMore(frames: seq<Frame>, input: seq<byte>)
    requires Fits(frames) && Framed(input) && |input| >= 8 + Size(input)
    ensures var f := First(input);
            && Fits(frames + [f])
            && Encode(frames + [f]) + input[8 + Size(input)..] == Encode(frames) + input
  {
    var f, rest := First(input), input[8 + Size(input)..];
    FirstEncodes(input);
    EncodeAppend(frames, f);
    assert Encode(frames) + (Header(f) + f.payload) + rest == Encode(frames) + (Header(f) + f.payload + rest);
  }

  lemma {:induction false} NoFrames()
    ensures Encode([]) == [] && Decoded([], [], [], [])
  {
  }

  /** demuxDockerStream. An input that encodes frames gives their payloads by stream and in order of
      arrival; any other input is returned whole. In Go an absent slice is nil; here it is empty. */
  method DemuxDockerStream(original: seq<byte>) returns (stdout: seq<byte>, stderr: seq<byte>, combined: seq<byte>)
    ensures forall frames | Fits(frames) && Encode(frames) == original :: Decoded(frames, stdout, stderr, combined)
    ensures !Encoded(original) ==> stdout == original && stderr == [] && combined == original
  {
    hide Encode, Of, Payloads, Size;
    NoFrames();
    stdout, stderr, combined := [], [], [];
    var input, parsed := original, false;
    ghost var frames: seq<Frame> := [];
    while Framed(input)
      invariant Fits(frames) && Encode(frames) + input == original
      invariant Decoded(frames, stdout, stderr, combined)
      invariant parsed == (frames != [])
      decreases |input|
    {
      var stream, size := input[0], Size(input);
      if |input| < 8 + size {
        NotEncoded(frames, input);
        return original, [], original;
      }
      var chunk := input[8..8 + size];
      OneMore(frames, input);
      PayloadsAppend(frames, First(input));
      frames := frames + [First(input)];
      combined := combined + chunk;
      if stream == 1 {
        stdout := stdout + chunk;
      } else {
        stderr := stderr + chunk;
      }
      input := input[8 + size..];
      parsed := true;
    }
    if |input| == 0 {
      forall other | Fits(other) && Encode(other) == original ensures other == frames {
        EncodeInjective(other, frames);
      }
    }
    if !parsed || |input| != 0 {
      if |input| != 0 {
        NotEncoded(frames, input);
      }
      return original, [], original;
    }
  }
}
