// One chunk through each of the three processors, and exactly when their answers
// agree.
module Frames {
  import opened Common
  import opened Raster
  import opened Pixels
  import opened GaussianKernel
  import opened BlurSpec
  import opened BlurRivals
  import opened StencilSpec
  import opened StencilLoops

  datatype MediaType = MediaUnspecified | Video | Audio | Image
  datatype Filter = FilterUnspecified | GaussianBlur | Sharpen | EdgeDetect | Grayscale
  datatype Params = Params(filter: Filter, blurRadius: real, intensity: real)
  datatype Chunk = Chunk(data: seq<byte>, mediaType: MediaType, width: nat, height: nat,
                         sequenceId: int, params: Option<Params>)

  datatype Outcome = Processed(data: seq<byte>) | UnsupportedMedia | InvalidSize | OutOfMemory
  datatype Reply = Reply(sequenceId: int, outcome: Outcome)

  // The byte count width * height * 3 is computed in 32-bit int by the C++ server.
  predicate FitsInt(chunk: Chunk) {
    3 * (chunk.width * chunk.height) < 0x8000_0000
  }

  predicate Accepts(chunk: Chunk) {
    && (chunk.mediaType == Video || chunk.mediaType == Image)
    && |chunk.data| == 3 * (chunk.width * chunk.height)
  }

  // ---- parameter selection

  function ChosenFilter(chunk: Chunk): Filter {
    if chunk.params.Some? then chunk.params.value.filter else GaussianBlur
  }

  function ChosenRadius(chunk: Chunk): (r: real)
    ensures r > 0.0
  {
    if chunk.params.Some? && chunk.params.value.blurRadius > 0.0 then chunk.params.value.blurRadius else 5.0
  }

  function CppIntensity(chunk: Chunk): real {
    if chunk.params.Some? then chunk.params.value.intensity else 1.0
  }

  function GoIntensity(chunk: Chunk): real {
    if chunk.params.Some? && chunk.params.value.intensity > 0.0 then chunk.params.value.intensity else 1.0
  }

  // ---- the images the processors produce

  // `stale` is what the freshly bumped output buffer held before.
  ghost function ArenaImage(exp: Exponential, chunk: Chunk, stale: seq<byte>): (int, int, int) -> byte
    requires Positive(exp)
  {
    var w, h := chunk.width, chunk.height;
    match ChosenFilter(chunk)
    case Sharpen => Over(w, h, SharpenImage(chunk.data, w, CppIntensity(chunk)), Shown(stale, w))
    case EdgeDetect => Over(w, h, EdgeImage(chunk.data, w), Shown(stale, w))
    case Grayscale => GrayImage(chunk.data, w)
    case _ => ExpectedBlur(exp, chunk.data, w, h, ChosenRadius(chunk))
  }

  ghost function HeapImage(exp: Exponential, chunk: Chunk): (int, int, int) -> byte
    requires Positive(exp)
  {
    var w, h := chunk.width, chunk.height;
    match ChosenFilter(chunk)
    case Sharpen => Over(w, h, SharpenImage(chunk.data, w, CppIntensity(chunk)), Shown(chunk.data, w))
    case EdgeDetect => Over(w, h, EdgeImage(chunk.data, w), Black())
    case Grayscale => GrayImage(chunk.data, w)
    case _ => ExpectedBlur(exp, chunk.data, w, h, ChosenRadius(chunk))
  }

  ghost function GoImage(exp: Exponential, chunk: Chunk): (int, int, int) -> byte
    requires Positive(exp)
  {
    var w, h := chunk.width, chunk.height;
    match ChosenFilter(chunk)
    case Sharpen => Over(w, h, SharpenImage(chunk.data, w, GoIntensity(chunk)), Black())
    case EdgeDetect => Over(w, h, EdgeImage(chunk.data, w), Black())
    case Grayscale => GrayImage(chunk.data, w)
    case _ => ExpectedBlur(exp, chunk.data, w, h, ChosenRadius(chunk))
  }

  // A correct answer to a chunk, for a processor that renders `image`.
  ghost predicate IsReply(reply: Reply, chunk: Chunk, image: (int, int, int) -> byte) {
    && reply.sequenceId == chunk.sequenceId
    && match reply.outcome
       case UnsupportedMedia => chunk.mediaType != Video && chunk.mediaType != Image
       case InvalidSize =>
         (chunk.mediaType == Video || chunk.mediaType == Image)
         && |chunk.data| != 3 * (chunk.width * chunk.height)
       case Processed(data) => Accepts(chunk) && Renders(data, chunk.width, chunk.height, image)
       case OutOfMemory => false
  }

  // ---- the vectors of the heap path, any of which may throw bad_alloc

  // Bytes of the vectors a frame allocates, in order.
  function HeapVectors(chunk: Chunk): (sizes: seq<nat>)
    ensures 1 <= |sizes| <= 3
  {
    var pixels := chunk.width * chunk.height;
    KernelSizeOddAndBounded(ChosenRadius(chunk));
    match ChosenFilter(chunk)
    case Sharpen => [3 * pixels]
    case Grayscale => [3 * pixels]
    case EdgeDetect => [3 * pixels, pixels]
    case _ => [3 * pixels, 4 * KernelSize(ChosenRadius(chunk)), 12 * pixels]
  }

  // An empty vector needs no memory.
  predicate Granted(chunk: Chunk, memory: nat -> bool, k: nat) {
    k < |HeapVectors(chunk)| ==> HeapVectors(chunk)[k] == 0 || memory(k)
  }

  predicate AllGranted(chunk: Chunk, memory: nat -> bool) {
    Granted(chunk, memory, 0) && Granted(chunk, memory, 1) && Granted(chunk, memory, 2)
  }

  // A correct answer of the heap path: the exception becomes a failure reply.
  ghost predicate IsHeapReply(exp: Exponential, reply: Reply, chunk: Chunk, memory: nat -> bool)
    requires Positive(exp)
  {
    if Accepts(chunk) && !AllGranted(chunk, memory) then reply == Reply(chunk.sequenceId, OutOfMemory)
    else IsReply(reply, chunk, HeapImage(exp, chunk))
  }

  lemma BeyondGranted(chunk: Chunk, memory: nat -> bool)
    ensures forall k: nat :: k >= |HeapVectors(chunk)| ==> Granted(chunk, memory, k)
  {
  }

  // What a processor owes a chunk, case by case.
  lemma OwedReply(chunk: Chunk, image: (int, int, int) -> byte)
    ensures chunk.mediaType != Video && chunk.mediaType != Image ==>
              !Accepts(chunk) && IsReply(Reply(chunk.sequenceId, UnsupportedMedia), chunk, image)
    ensures (chunk.mediaType == Video || chunk.mediaType == Image)
            && |chunk.data| != 3 * (chunk.width * chunk.height) ==>
              !Accepts(chunk) && IsReply(Reply(chunk.sequenceId, InvalidSize), chunk, image)
    ensures forall data :: Accepts(chunk) && Renders(data, chunk.width, chunk.height, image) ==>
              IsReply(Reply(chunk.sequenceId, Processed(data)), chunk, image)
  {
  }

  lemma HeapReplyKind(exp: Exponential, reply: Reply, chunk: Chunk, memory: nat -> bool)
    requires Positive(exp) && IsHeapReply(exp, reply, chunk, memory)
    ensures reply.sequenceId == chunk.sequenceId
    ensures reply.outcome.Processed? <==> Accepts(chunk) && AllGranted(chunk, memory)
    ensures reply.outcome.OutOfMemory? <==> Accepts(chunk) && !AllGranted(chunk, memory)
  {
  }

  // ---- the processors

  method ApplyFilterArena(exp: Exponential, chunk: Chunk, output: array<byte>, avx2: bool)
    requires Positive(exp) && Accepts(chunk) && output.Length == |chunk.data|
    modifies output
    ensures Renders(output[..], chunk.width, chunk.height, ArenaImage(exp, chunk, old(output[..])))
  {
    var w, h := chunk.width, chunk.height;
    match ChosenFilter(chunk) {
      case GaussianBlur =>
        ArenaGaussianBlur(exp, chunk.data, output, w, h, ChosenRadius(chunk), avx2);
      case Sharpen =>
        ArenaSharpen(chunk.data, output, w, h, CppIntensity(chunk));
      case EdgeDetect =>
        ArenaEdgeDetect(chunk.data, output, w, h);
      case Grayscale =>
        StencilLoops.Grayscale(chunk.data, output, w, h);
      case FilterUnspecified =>
        ArenaGaussianBlur(exp, chunk.data, output, w, h, ChosenRadius(chunk), avx2);
    }
  }

  // Throws when a vector cannot be had.
  method ApplyFilterHeap(exp: Exponential, chunk: Chunk, output: array<byte>, memory: nat -> bool)
    returns (thrown: bool)
    requires Positive(exp) && Accepts(chunk) && output.Length == |chunk.data|
    modifies output
    ensures thrown <==> !Granted(chunk, memory, 1) || !Granted(chunk, memory, 2)
    ensures !thrown ==> Renders(output[..], chunk.width, chunk.height, HeapImage(exp, chunk))
  {
    var w, h := chunk.width, chunk.height;
    var filter := ChosenFilter(chunk);
    thrown := false;
    if filter == Grayscale {
      StencilLoops.Grayscale(chunk.data, output, w, h);
      return;
    }
    if filter == Sharpen {
      HeapSharpen(chunk.data, output, w, h, CppIntensity(chunk));
      return;
    }
    if filter == EdgeDetect {
      if w * h != 0 && !memory(1) {
        return true;
      }
      HeapEdgeDetect(chunk.data, output, w, h);
      return;
    }
    KernelSizeOddAndBounded(ChosenRadius(chunk));
    if !memory(1) || (12 * (w * h) != 0 && !memory(2)) {
      return true;
    }
    HeapGaussianBlur(exp, chunk.data, output, w, h, ChosenRadius(chunk));
  }

  method ProcessChunkHeap(exp: Exponential, chunk: Chunk, memory: nat -> bool) returns (reply: Reply)
    requires Positive(exp) && FitsInt(chunk)
    ensures IsHeapReply(exp, reply, chunk, memory)
  {
    hide Renders;
    hide HeapImage;
    if chunk.mediaType != Video && chunk.mediaType != Image {
      return Reply(chunk.sequenceId, UnsupportedMedia);
    }
    var expectedSize := 3 * (chunk.width * chunk.height);
    if |chunk.data| != expectedSize {
      return Reply(chunk.sequenceId, InvalidSize);
    }
    if expectedSize != 0 && !memory(0) {
      return Reply(chunk.sequenceId, OutOfMemory);
    }
    var output := new byte[expectedSize](_ => 0);
    var thrown := ApplyFilterHeap(exp, chunk, output, memory);
    if thrown {
      return Reply(chunk.sequenceId, OutOfMemory);
    }
    return Reply(chunk.sequenceId, Processed(output[..]));
  }

  method ProcessChunkGo(exp: Exponential, chunk: Chunk) returns (reply: Reply)
    requires Positive(exp) && FitsInt(chunk)
    ensures IsReply(reply, chunk, GoImage(exp, chunk))
  {
    if chunk.mediaType != Video && chunk.mediaType != Image {
      return Reply(chunk.sequenceId, UnsupportedMedia);
    }
    var w, h := chunk.width, chunk.height;
    if |chunk.data| != 3 * (w * h) {
      return Reply(chunk.sequenceId, InvalidSize);
    }
    var output: array<byte>;
    match ChosenFilter(chunk) {
      case GaussianBlur => output := GoGaussianBlur(exp, chunk.data, w, h, ChosenRadius(chunk));
      case Grayscale => output := GoGrayscale(chunk.data, w, h);
      case Sharpen => output := GoSharpen(chunk.data, w, h, GoIntensity(chunk));
      case EdgeDetect => output := GoEdgeDetect(chunk.data, w, h);
      case FilterUnspecified => output := GoGaussianBlur(exp, chunk.data, w, h, ChosenRadius(chunk));
    }
    return Reply(chunk.sequenceId, Processed(output[..]));
  }

  // ---- what each filter answers

  // The three processors' images of a frame, from the parameters as sent: a blur
  // without parameters or for a filter left unspecified, radius 5 when none is
  // sent, and each processor's own reading of the intensity and own border.
  lemma AnswersByFilter(exp: Exponential, chunk: Chunk, stale: seq<byte>, y: int, x: int, c: int)
    requires Positive(exp)
    ensures var w, h := chunk.width, chunk.height;
      var arena, heap, go :=
        ArenaImage(exp, chunk, stale)(y, x, c), HeapImage(exp, chunk)(y, x, c), GoImage(exp, chunk)(y, x, c);
      match chunk.params
      case None =>
        arena == heap == go == ExpectedBlur(exp, chunk.data, w, h, 5.0)(y, x, c)
      case Some(Params(filter, radius, intensity)) =>
        match filter
        case Grayscale => arena == heap == go == GrayImage(chunk.data, w)(y, x, c)
        case EdgeDetect =>
          if Interior(w, h, y, x) then arena == heap == go == EdgeImage(chunk.data, w)(y, x, c)
          else arena == Shown(stale, w)(y, x, c) && heap == go == 0
        case Sharpen =>
          if Interior(w, h, y, x) then
            && arena == heap == SharpenImage(chunk.data, w, intensity)(y, x, c)
            && go == SharpenImage(chunk.data, w, if intensity > 0.0 then intensity else 1.0)(y, x, c)
          else arena == Shown(stale, w)(y, x, c) && heap == Shown(chunk.data, w)(y, x, c) && go == 0
        case GaussianBlur =>
          arena == heap == go
          == ExpectedBlur(exp, chunk.data, w, h, if radius > 0.0 then radius else 5.0)(y, x, c)
        case FilterUnspecified =>
          arena == heap == go
          == ExpectedBlur(exp, chunk.data, w, h, if radius > 0.0 then radius else 5.0)(y, x, c)
  {
  }

  // ---- when the answers agree

  ghost predicate SameOnBorder(w: int, h: int, b: (int, int, int) -> byte, b': (int, int, int) -> byte) {
    forall y, x, c :: Inside(w, h, y, x, c) && !Interior(w, h, y, x) ==> b(y, x, c) == b'(y, x, c)
  }

  ghost predicate SameInside(w: int, h: int, f: (int, int, int) -> byte, f': (int, int, int) -> byte) {
    forall y, x, c :: Inside(w, h, y, x, c) && Interior(w, h, y, x) ==> f(y, x, c) == f'(y, x, c)
  }

  // Two frames that differ inside and on the border are equal exactly when they
  // agree in both places.
  lemma OversEqualIff(s: seq<byte>, t: seq<byte>, w: nat, h: nat,
                      inner: (int, int, int) -> byte, inner': (int, int, int) -> byte,
                      b: (int, int, int) -> byte, b': (int, int, int) -> byte)
    requires Renders(s, w, h, Over(w, h, inner, b)) && Renders(t, w, h, Over(w, h, inner', b'))
    ensures s == t <==> SameOnBorder(w, h, b, b') && SameInside(w, h, inner, inner')
  {
    var f, g := Over(w, h, inner, b), Over(w, h, inner', b');
    if SameOnBorder(w, h, b, b') && SameInside(w, h, inner, inner') {
      RendersUnique(s, t, w, h, f, g);
    }
    if s == t {
      forall y, x, c | Inside(w, h, y, x, c)
        ensures f(y, x, c) == g(y, x, c)
      {
        RenderedAt(s, w, h, f, y, x, c);
        RenderedAt(t, w, h, g, y, x, c);
      }
      assert forall y, x, c :: Inside(w, h, y, x, c) && Interior(w, h, y, x) ==>
               f(y, x, c) == inner(y, x, c) && g(y, x, c) == inner'(y, x, c);
      assert forall y, x, c :: Inside(w, h, y, x, c) && !Interior(w, h, y, x) ==>
               f(y, x, c) == b(y, x, c) && g(y, x, c) == b'(y, x, c);
    }
  }

  // With the same interior, two frames are equal exactly when their borders are.
  lemma OverEqualIff(s: seq<byte>, t: seq<byte>, w: nat, h: nat, inner: (int, int, int) -> byte,
                     b: (int, int, int) -> byte, b': (int, int, int) -> byte)
    requires Renders(s, w, h, Over(w, h, inner, b)) && Renders(t, w, h, Over(w, h, inner, b'))
    ensures s == t <==> SameOnBorder(w, h, b, b')
  {
    OversEqualIff(s, t, w, h, inner, inner, b, b');
  }

  // Rejections are the same in every processor.
  lemma SameOutcomeKind(chunk: Chunk, r: Reply, r': Reply, f: (int, int, int) -> byte, g: (int, int, int) -> byte)
    requires IsReply(r, chunk, f) && IsReply(r', chunk, g)
    ensures r.sequenceId == r'.sequenceId
    ensures r.outcome.Processed? == r'.outcome.Processed? == Accepts(chunk)
    ensures !Accepts(chunk) ==> r == r'
  {
  }

  // A rejected chunk needs no memory; an accepted one needs all its vectors.
  predicate HeapSuffices(chunk: Chunk, memory: nat -> bool) {
    !Accepts(chunk) || AllGranted(chunk, memory)
  }

  // Without all its vectors the heap answer to an accepted chunk is a failure,
  // which no correct answer equals.
  lemma HeapAnswer(exp: Exponential, chunk: Chunk, memory: nat -> bool, heap: Reply, other: Reply,
                   image: (int, int, int) -> byte)
    requires Positive(exp) && IsHeapReply(exp, heap, chunk, memory) && IsReply(other, chunk, image)
    ensures HeapSuffices(chunk, memory) ==> IsReply(heap, chunk, HeapImage(exp, chunk))
    ensures !HeapSuffices(chunk, memory) ==> heap != other
  {
  }

  lemma SameImageSameReply(chunk: Chunk, r: Reply, r': Reply,
                           image: (int, int, int) -> byte, image': (int, int, int) -> byte)
    requires IsReply(r, chunk, image) && IsReply(r', chunk, image')
    requires forall y, x, c :: Inside(chunk.width, chunk.height, y, x, c) ==> image(y, x, c) == image'(y, x, c)
    ensures r == r'
  {
    SameOutcomeKind(chunk, r, r', image, image');
    if Accepts(chunk) {
      RendersUnique(r.outcome.data, r'.outcome.data, chunk.width, chunk.height, image, image');
    }
  }

  // Blur and grayscale answers of arena and Go are equal byte for byte, whatever
  // the arena buffer held, and the heap answer is the same if and only if its
  // vectors could be had; on edges heap and Go agree under the same condition.
  lemma ProcessorsAgree(exp: Exponential, chunk: Chunk, stale: seq<byte>, memory: nat -> bool,
                        arena: Reply, heap: Reply, go: Reply)
    requires Positive(exp)
    requires IsReply(arena, chunk, ArenaImage(exp, chunk, stale))
    requires IsHeapReply(exp, heap, chunk, memory)
    requires IsReply(go, chunk, GoImage(exp, chunk))
    ensures ChosenFilter(chunk) != Sharpen ==> (heap == go <==> HeapSuffices(chunk, memory))
    ensures ChosenFilter(chunk) != Sharpen && ChosenFilter(chunk) != EdgeDetect ==>
              arena == go && (arena == heap <==> HeapSuffices(chunk, memory))
  {
    HeapAnswer(exp, chunk, memory, heap, go, GoImage(exp, chunk));
    if ChosenFilter(chunk) != Sharpen && HeapSuffices(chunk, memory) {
      SameImageSameReply(chunk, heap, go, HeapImage(exp, chunk), GoImage(exp, chunk));
    }
    if ChosenFilter(chunk) != Sharpen && ChosenFilter(chunk) != EdgeDetect {
      SameImageSameReply(chunk, arena, go, ArenaImage(exp, chunk, stale), GoImage(exp, chunk));
    }
  }

  // Sharpen and edge answers of arena and heap agree exactly when the heap had
  // its vectors and the arena buffer happened to hold the border that the heap
  // version initialises.
  lemma ArenaMatchesHeapIff(exp: Exponential, chunk: Chunk, stale: seq<byte>, memory: nat -> bool,
                            arena: Reply, heap: Reply)
    requires Positive(exp) && Accepts(chunk)
    requires IsReply(arena, chunk, ArenaImage(exp, chunk, stale))
    requires IsHeapReply(exp, heap, chunk, memory)
    ensures var w, h := chunk.width, chunk.height;
      && (ChosenFilter(chunk) == Sharpen ==>
            (arena == heap <==> AllGranted(chunk, memory) && SameOnBorder(w, h, Shown(stale, w), Shown(chunk.data, w))))
      && (ChosenFilter(chunk) == EdgeDetect ==>
            (arena == heap <==> AllGranted(chunk, memory) && SameOnBorder(w, h, Shown(stale, w), Black())))
  {
    HeapAnswer(exp, chunk, memory, heap, arena, ArenaImage(exp, chunk, stale));
    if AllGranted(chunk, memory) {
      SameOutcomeKind(chunk, arena, heap, ArenaImage(exp, chunk, stale), HeapImage(exp, chunk));
      var w, h := chunk.width, chunk.height;
      var s, t := arena.outcome.data, heap.outcome.data;
      if ChosenFilter(chunk) == Sharpen {
        var inner := SharpenImage(chunk.data, w, CppIntensity(chunk));
        OverEqualIff(s, t, w, h, inner, Shown(stale, w), Shown(chunk.data, w));
      } else if ChosenFilter(chunk) == EdgeDetect {
        OverEqualIff(s, t, w, h, EdgeImage(chunk.data, w), Shown(stale, w), Black());
      }
    }
  }

  function OneBlackPixel(): Chunk {
    Chunk([0, 0, 0], Video, 1, 1, 1, Some(Params(EdgeDetect, 0.0, 0.0)))
  }

  // A black frame of one pixel, to be searched for edges, in a buffer that held
  // sevens: the arena shows them, the heap answers black.
  lemma StaleBorderDiffers(exp: Exponential, memory: nat -> bool, arena: Reply, heap: Reply)
    requires Positive(exp) && AllGranted(OneBlackPixel(), memory)
    requires IsReply(arena, OneBlackPixel(), ArenaImage(exp, OneBlackPixel(), [7, 7, 7]))
    requires IsHeapReply(exp, heap, OneBlackPixel(), memory)
    ensures arena.outcome.Processed? && heap.outcome.Processed? && arena != heap
    ensures Shown(arena.outcome.data, 1)(0, 0, 0) == 7
    ensures Shown(heap.outcome.data, 1)(0, 0, 0) == 0
  {
    var chunk := OneBlackPixel();
    HeapAnswer(exp, chunk, memory, heap, arena, ArenaImage(exp, chunk, [7, 7, 7]));
    hide EdgeImage;
    hide IsHeapReply;
    RenderedAt(arena.outcome.data, 1, 1, ArenaImage(exp, chunk, [7, 7, 7]), 0, 0, 0);
    RenderedAt(heap.outcome.data, 1, 1, HeapImage(exp, chunk), 0, 0, 0);
    assert Shown([7, 7, 7], 1)(0, 0, 0) == 7;
  }

  // Whatever the buffer held: same interior as the heap version, and border
  // bytes that are exactly the ones that were there.
  lemma ArenaInteriorAndBorder(exp: Exponential, chunk: Chunk, stale: seq<byte>, memory: nat -> bool,
                               arena: Reply, heap: Reply,
                               y: int, x: int, c: int)
    requires Positive(exp) && Accepts(chunk) && Inside(chunk.width, chunk.height, y, x, c)
    requires ChosenFilter(chunk) == Sharpen || ChosenFilter(chunk) == EdgeDetect
    requires IsReply(arena, chunk, ArenaImage(exp, chunk, stale))
    requires IsHeapReply(exp, heap, chunk, memory) && AllGranted(chunk, memory)
    ensures arena.outcome.Processed? && heap.outcome.Processed?
    ensures var w, h := chunk.width, chunk.height;
            Shown(arena.outcome.data, w)(y, x, c) ==
              if Interior(w, h, y, x) then Shown(heap.outcome.data, w)(y, x, c) else Shown(stale, w)(y, x, c)
  {
    var w, h := chunk.width, chunk.height;
    RenderedAt(arena.outcome.data, w, h, ArenaImage(exp, chunk, stale), y, x, c);
    RenderedAt(heap.outcome.data, w, h, HeapImage(exp, chunk), y, x, c);
  }

  // The C++ and Go servers read the intensity differently: they use the same
  // value exactly when no parameters came or the intensity is positive.
  lemma IntensitiesAgreeIff(chunk: Chunk)
    ensures CppIntensity(chunk) == GoIntensity(chunk)
      <==> (chunk.params.None? || chunk.params.value.intensity > 0.0)
  {
  }

  // Four times a sample less its four neighbours.
  function Laplacian(input: seq<byte>, w: int, y: int, x: int, c: int): int {
    var b := Shown(input, w);
    4 * b(y, x, c) - (b(y - 1, x, c) + b(y, x - 1, c) + b(y, x + 1, c) + b(y + 1, x, c))
  }

  // Intensities a and a' sharpen a sample v with Laplacian l to the same byte, a'
  // being a, or 1 when a is not positive.
  predicate SharpensAlike(a: real, v: byte, l: int) {
    || a > 0.0 || l == 0
    || (v == 255 && l > 0 && a == 0.0)
    || (v == 0 && l < 0 && a * l as real < 1.0)
  }

  lemma SharpenBytes(a: real, a': real, v: byte, l: int)
    requires a' == if a > 0.0 then a else 1.0
    ensures ClampByte(v as real + a * l as real) == ClampByte(v as real + a' * l as real) <==> SharpensAlike(a, v, l)
  {
    if a <= 0.0 && l > 0 {
      Raised(a, v, l);
    } else if a <= 0.0 && l < 0 {
      Lowered(a, v, l);
    }
  }

  lemma Raised(a: real, v: byte, l: int)
    requires a <= 0.0 && l > 0
    ensures ClampByte(v as real + a * l as real) == ClampByte(v as real + l as real) <==> v == 255 && a == 0.0
  {
    var cpp, go := ClampByte(v as real + a * l as real), ClampByte(v as real + l as real);
    assert go == Min(255, v + l);
    if a == 0.0 {
      assert cpp == v;
    } else {
      assert a * l as real < 0.0;
      assert cpp < v || cpp == v == 0;
    }
  }

  lemma Lowered(a: real, v: byte, l: int)
    requires a <= 0.0 && l < 0
    ensures ClampByte(v as real + a * l as real) == ClampByte(v as real + l as real) <==> v == 0 && a * l as real < 1.0
  {
    var cpp, go := ClampByte(v as real + a * l as real), ClampByte(v as real + l as real);
    assert go == Max(0, v + l);
    assert a * l as real >= 0.0;
    assert cpp >= v;
  }

  lemma StencilOfBytes(a: real, v: byte, up: byte, left: byte, right: byte, down: byte)
    ensures (1.0 + 4.0 * a) * v as real - a * (up as real + left as real + right as real + down as real)
         == v as real + a * (4 * v - (up + left + right + down)) as real
  {
    var sum := up as real + left as real + right as real + down as real;
    RaisedCentre(a, v as real, sum);
    assert (4 * v - (up + left + right + down)) as real == 4.0 * v as real - sum;
  }

  lemma RaisedCentre(a: real, v: real, sum: real)
    ensures (1.0 + 4.0 * a) * v - a * sum == v + a * (4.0 * v - sum)
  {
    assert (1.0 + 4.0 * a) * v == v + 4.0 * (a * v);
    assert a * (4.0 * v - sum) == 4.0 * (a * v) - a * sum;
  }

  lemma ChannelShows(input: seq<byte>, w: int, c: int, y: int, x: int)
    ensures ByteChannel(input, w, c)(y, x) == Shown(input, w)(y, x, c) as real
  {
  }

  lemma SharpenedSample(input: seq<byte>, w: int, a: real, y: int, x: int, c: int)
    ensures SharpenImage(input, w, a)(y, x, c)
         == ClampByte(Shown(input, w)(y, x, c) as real + a * Laplacian(input, w, y, x, c) as real)
  {
    ChannelShows(input, w, c, y, x);
    ChannelShows(input, w, c, y - 1, x);
    ChannelShows(input, w, c, y, x - 1);
    ChannelShows(input, w, c, y, x + 1);
    ChannelShows(input, w, c, y + 1, x);
    hide Shown;
    hide ByteChannel;
    hide ClampByte;
    var b, f := Shown(input, w), ByteChannel(input, w, c);
    StencilOfBytes(a, b(y, x, c), b(y - 1, x, c), b(y, x - 1, c), b(y, x + 1, c), b(y + 1, x, c));
    assert Stencil(f, a, y, x) == b(y, x, c) as real + a * Laplacian(input, w, y, x, c) as real;
  }

  predicate AlikeAt(input: seq<byte>, w: int, a: real, y: int, x: int, c: int) {
    SharpensAlike(a, Shown(input, w)(y, x, c), Laplacian(input, w, y, x, c))
  }

  ghost predicate AlikeInside(input: seq<byte>, w: int, h: int, a: real) {
    forall y, x, c :: Inside(w, h, y, x, c) && Interior(w, h, y, x) ==> AlikeAt(input, w, a, y, x, c)
  }

  lemma AlikeAtIff(chunk: Chunk, y: int, x: int, c: int)
    ensures var w, a := chunk.width, CppIntensity(chunk);
            AlikeAt(chunk.data, w, a, y, x, c)
            == (SharpenImage(chunk.data, w, a)(y, x, c) == SharpenImage(chunk.data, w, GoIntensity(chunk))(y, x, c))
  {
    var w, a, a' := chunk.width, CppIntensity(chunk), GoIntensity(chunk);
    SharpenedSample(chunk.data, w, a, y, x, c);
    SharpenedSample(chunk.data, w, a', y, x, c);
    SharpenBytes(a, a', Shown(chunk.data, w)(y, x, c), Laplacian(chunk.data, w, y, x, c));
  }

  // What heap and Go need of the input to sharpen it alike: a black border, and
  // inside, unless the intensity is positive, samples that both leave alone.
  ghost predicate SharpenInputAlike(chunk: Chunk) {
    var w, h, a := chunk.width, chunk.height, CppIntensity(chunk);
    && SameOnBorder(w, h, Shown(chunk.data, w), Black())
    && AlikeInside(chunk.data, w, h, a)
  }

  lemma SharpenedEqualIff(exp: Exponential, chunk: Chunk, heap: Reply, go: Reply)
    requires Positive(exp) && Accepts(chunk) && ChosenFilter(chunk) == Sharpen
    requires IsReply(heap, chunk, HeapImage(exp, chunk)) && IsReply(go, chunk, GoImage(exp, chunk))
    ensures heap == go <==> SharpenInputAlike(chunk)
  {
    SameOutcomeKind(chunk, heap, go, HeapImage(exp, chunk), GoImage(exp, chunk));
    var w, h, a, a' := chunk.width, chunk.height, CppIntensity(chunk), GoIntensity(chunk);
    var inner, inner' := SharpenImage(chunk.data, w, a), SharpenImage(chunk.data, w, a');
    OversEqualIff(heap.outcome.data, go.outcome.data, w, h, inner, inner', Shown(chunk.data, w), Black());
    hide AlikeAt;
    hide SharpenImage;
    forall y, x, c
      ensures AlikeAt(chunk.data, w, a, y, x, c) == (inner(y, x, c) == inner'(y, x, c))
    {
      AlikeAtIff(chunk, y, x, c);
    }
  }

  // Sharpened frames of heap and Go are equal exactly for such inputs, whatever
  // intensity was sent, provided the heap had its vector.
  lemma HeapMatchesGoIff(exp: Exponential, chunk: Chunk, memory: nat -> bool, heap: Reply, go: Reply)
    requires Positive(exp) && Accepts(chunk) && ChosenFilter(chunk) == Sharpen
    requires IsHeapReply(exp, heap, chunk, memory) && IsReply(go, chunk, GoImage(exp, chunk))
    ensures heap == go <==> AllGranted(chunk, memory) && SharpenInputAlike(chunk)
  {
    HeapAnswer(exp, chunk, memory, heap, go, GoImage(exp, chunk));
    if AllGranted(chunk, memory) {
      SharpenedEqualIff(exp, chunk, heap, go);
    }
  }

  // Black, white, or a quarter of the sum of the four neighbours.
  predicate StaysPut(v: byte, sum: int) {
    v == 0 || v == 255 || 4 * v == sum
  }

  lemma StaysPutIff(v: byte, up: byte, left: byte, right: byte, down: byte)
    ensures SharpensAlike(0.0, v, 4 * v - (up + left + right + down)) <==> StaysPut(v, up + left + right + down)
  {
  }

  predicate StaysPutAt(input: seq<byte>, w: int, y: int, x: int, c: int) {
    var b := Shown(input, w);
    StaysPut(b(y, x, c), b(y - 1, x, c) + b(y, x - 1, c) + b(y, x + 1, c) + b(y + 1, x, c))
  }

  ghost predicate StaysPutInside(input: seq<byte>, w: int, h: int) {
    forall y, x, c :: Inside(w, h, y, x, c) && Interior(w, h, y, x) ==> StaysPutAt(input, w, y, x, c)
  }

  lemma AlikeIffStaysPut(input: seq<byte>, w: int, h: int)
    ensures AlikeInside(input, w, h, 0.0) <==> StaysPutInside(input, w, h)
  {
    forall y, x, c
      ensures AlikeAt(input, w, 0.0, y, x, c) == StaysPutAt(input, w, y, x, c)
    {
      var b := Shown(input, w);
      StaysPutIff(b(y, x, c), b(y - 1, x, c), b(y, x - 1, c), b(y, x + 1, c), b(y + 1, x, c));
    }
    hide AlikeAt;
    hide StaysPutAt;
  }

  // The gateway always sends parameters and never sets the intensity: heap and Go
  // then agree exactly on frames with a black border whose inner samples are 0,
  // 255, or a quarter of the sum of their four neighbours.
  lemma GatewayFramesAgreeIff(exp: Exponential, chunk: Chunk, memory: nat -> bool, heap: Reply, go: Reply)
    requires Positive(exp) && Accepts(chunk) && ChosenFilter(chunk) == Sharpen
    requires chunk.params.Some? && chunk.params.value.intensity == 0.0
    requires IsHeapReply(exp, heap, chunk, memory) && IsReply(go, chunk, GoImage(exp, chunk))
    ensures heap == go <==>
              && AllGranted(chunk, memory)
              && SameOnBorder(chunk.width, chunk.height, Shown(chunk.data, chunk.width), Black())
              && StaysPutInside(chunk.data, chunk.width, chunk.height)
  {
    HeapMatchesGoIff(exp, chunk, memory, heap, go);
    AlikeIffStaysPut(chunk.data, chunk.width, chunk.height);
  }

  // Without a positive intensity they can differ even under a black border: one
  // bright pixel, kept by the C++ server and saturated by the Go one.
  lemma UnsetIntensityDiffers(exp: Exponential, heap: Reply, go: Reply)
    requires Positive(exp)
    requires IsReply(heap, OneBrightPixel(), HeapImage(exp, OneBrightPixel()))
    requires IsReply(go, OneBrightPixel(), GoImage(exp, OneBrightPixel()))
    ensures heap.outcome.Processed? && go.outcome.Processed?
    ensures Shown(heap.outcome.data, 3)(1, 1, 0) == 100
    ensures Shown(go.outcome.data, 3)(1, 1, 0) == 255
  {
    var chunk := OneBrightPixel();
    RenderedAt(heap.outcome.data, 3, 3, HeapImage(exp, chunk), 1, 1, 0);
    RenderedAt(go.outcome.data, 3, 3, GoImage(exp, chunk), 1, 1, 0);
    var f := ByteChannel(chunk.data, 3, 0);
    assert f(1, 1) == 100.0 && f(0, 1) == 0.0 && f(1, 0) == 0.0 && f(1, 2) == 0.0 && f(2, 1) == 0.0;
    assert Stencil(f, 0.0, 1, 1) == 100.0;
    assert Stencil(f, 1.0, 1, 1) == 500.0;
    assert ClampByte(500.0) == 255;
    assert SharpenImage(chunk.data, 3, 1.0)(1, 1, 0) == ClampByte(Stencil(f, 1.0, 1, 1));
    assert GoIntensity(chunk) == 1.0;
  }

  // A 3 x 3 frame to sharpen with the intensity left unset.
  function OneBrightPixel(): Chunk {
    Chunk(seq(27, i => if i == 12 then 100 else 0), Video, 3, 3, 1, Some(Params(Sharpen, 0.0, 0.0)))
  }
}
