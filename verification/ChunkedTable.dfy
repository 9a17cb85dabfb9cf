/**
 The transition table of the chunked-body scanner, one row per state.

 State 0 is the error state: the scanner stops there, so it owns no row.
 A guarded state tests the chunk counter before the lookup and shifts the byte's key by 256
 when the test fails (keys 128..383) and by 512 when it holds (keys 384..639).
 */
module ChunkedTable {
  import opened Scanner

  datatype Action = AddDigit | StartSize | AppendByte | Recheck

  const START: nat := 1
  const CHUNK_DATA: nat := 12
  const FIRST_FINAL: nat := 66
  const STATES: nat := 69

  predicate Guarded(cs: nat) {
    cs == 4 || cs == 12 || (14 <= cs <= 16) || cs == 18 || cs == 26 || (29 <= cs <= 31) || (39 <= cs <= 53)
    || (60 <= cs <= 65) || cs == 68
  }

  /**
   The states that read a chunked body in which every byte has one reading. The others track
   a byte both as chunk data and as the framing that follows a chunk.
   */
  predicate Plain(cs: nat) {
    1 <= cs <= 14 || 33 <= cs <= 38 || 54 <= cs <= 59 || 66 <= cs <= 67
  }

  function RowOf(cs: nat): Row<Action>
    requires 0 < cs < STATES
  {
    if !Plain(cs) then AmbiguousRowOf(cs)
    else if 33 <= cs <= 38 then ExtensionRowOf(cs)
    else if 54 <= cs <= 59 then LastExtensionRowOf(cs)
    else FramingRowOf(cs)
  }

  function FramingRowOf(cs: nat): Row<Action>
    requires 1 <= cs <= 14 || 66 <= cs <= 67
  {
    match cs
    case 1 => Row(
        [Single(48, Move(2, [StartSize, AddDigit]))],
        [Range(49, 57, Move(10, [StartSize, AddDigit])), Range(65, 70, Move(10, [StartSize, AddDigit])),
         Range(97, 102, Move(10, [StartSize, AddDigit]))],
        Move(0, []))
    case 2 => Row(
        [Single(13, Move(3, [])), Single(48, Move(2, [AddDigit])), Single(59, Move(54, []))],
        [Range(49, 57, Move(10, [AddDigit])), Range(65, 70, Move(10, [AddDigit])),
         Range(97, 102, Move(10, [AddDigit]))],
        Move(0, []))
    case 3 => Row(
        [Single(10, Move(4, []))],
        [],
        Move(0, []))
    case 4 => Row(
        [Single(269, Move(9, [Recheck])), Single(522, Move(12, [AppendByte])),
         Single(525, Move(30, [AppendByte, Recheck]))],
        [Range(128, 265, Move(5, [])), Range(267, 383, Move(5, [])), Range(384, 639, Move(26, [AppendByte]))],
        Move(0, []))
    case 5 => Row(
        [Single(10, Move(0, [])), Single(13, Move(6, []))],
        [],
        Move(5, []))
    case 6 => Row(
        [Single(10, Move(7, []))],
        [],
        Move(0, []))
    case 7 => Row(
        [Single(10, Move(0, [])), Single(13, Move(8, []))],
        [],
        Move(5, []))
    case 8 => Row(
        [Single(10, Move(66, []))],
        [],
        Move(0, []))
    case 9 => Row(
        [Single(10, Move(67, []))],
        [],
        Move(0, []))
    case 10 => Row(
        [Single(13, Move(11, [])), Single(59, Move(33, []))],
        [Range(48, 57, Move(10, [AddDigit])), Range(65, 70, Move(10, [AddDigit])),
         Range(97, 102, Move(10, [AddDigit]))],
        Move(0, []))
    case 11 => Row(
        [Single(10, Move(12, []))],
        [],
        Move(0, []))
    case 12 => Row(
        [Single(269, Move(13, [Recheck])), Single(525, Move(14, [AppendByte, Recheck]))],
        [Range(384, 639, Move(12, [AppendByte]))],
        Move(0, []))
    case 13 => Row(
        [Single(10, Move(1, []))],
        [],
        Move(0, []))
    case 14 => Row(
        [Single(266, Move(1, [])), Single(269, Move(13, [Recheck])), Single(522, Move(15, [AppendByte])),
         Single(525, Move(14, [AppendByte, Recheck]))],
        [Range(384, 639, Move(12, [AppendByte]))],
        Move(0, []))
    case 66 => Row(
        [],
        [],
        Move(0, []))
    case _ => Row(
        [Single(48, Move(2, [StartSize, AddDigit]))],
        [Range(49, 57, Move(10, [StartSize, AddDigit])), Range(65, 70, Move(10, [StartSize, AddDigit])),
         Range(97, 102, Move(10, [StartSize, AddDigit]))],
        Move(0, []))
  }

  function ExtensionRowOf(cs: nat): Row<Action>
    requires 33 <= cs <= 38
  {
    match cs
    case 33 => Row(
        [],
        [Range(65, 90, Move(34, [])), Range(97, 122, Move(34, []))],
        Move(0, []))
    case 34 => Row(
        [Single(61, Move(35, []))],
        [Range(48, 57, Move(34, [])), Range(65, 90, Move(34, [])), Range(97, 122, Move(34, []))],
        Move(0, []))
    case 35 => Row(
        [Single(34, Move(36, []))],
        [Range(65, 90, Move(38, [])), Range(97, 122, Move(38, []))],
        Move(0, []))
    case 36 => Row(
        [Single(10, Move(0, [])), Single(13, Move(0, [])), Single(34, Move(37, []))],
        [],
        Move(36, []))
    case 37 => Row(
        [Single(13, Move(11, [])), Single(59, Move(33, []))],
        [],
        Move(0, []))
    case _ => Row(
        [Single(13, Move(11, [])), Single(59, Move(33, []))],
        [Range(48, 57, Move(38, [])), Range(65, 90, Move(38, [])), Range(97, 122, Move(38, []))],
        Move(0, []))
  }

  function LastExtensionRowOf(cs: nat): Row<Action>
    requires 54 <= cs <= 59
  {
    match cs
    case 54 => Row(
        [],
        [Range(65, 90, Move(55, [])), Range(97, 122, Move(55, []))],
        Move(0, []))
    case 55 => Row(
        [Single(61, Move(56, []))],
        [Range(48, 57, Move(55, [])), Range(65, 90, Move(55, [])), Range(97, 122, Move(55, []))],
        Move(0, []))
    case 56 => Row(
        [Single(34, Move(57, []))],
        [Range(65, 90, Move(59, [])), Range(97, 122, Move(59, []))],
        Move(0, []))
    case 57 => Row(
        [Single(10, Move(0, [])), Single(13, Move(0, [])), Single(34, Move(58, []))],
        [],
        Move(57, []))
    case 58 => Row(
        [Single(13, Move(3, [])), Single(59, Move(54, []))],
        [],
        Move(0, []))
    case _ => Row(
        [Single(13, Move(3, [])), Single(59, Move(54, []))],
        [Range(48, 57, Move(59, [])), Range(65, 90, Move(59, [])), Range(97, 122, Move(59, []))],
        Move(0, []))
  }

  function AmbiguousRowOf(cs: nat): Row<Action>
    requires 0 < cs < STATES && !Plain(cs)
  {
    match cs
    case 15 => Row(
        [Single(269, Move(13, [Recheck])), Single(304, Move(2, [StartSize, AddDigit])),
         Single(525, Move(14, [AppendByte, Recheck])), Single(560, Move(16, [AppendByte, StartSize, AddDigit]))],
        [Range(305, 313, Move(10, [StartSize, AddDigit])), Range(321, 326, Move(10, [StartSize, AddDigit])),
         Range(353, 358, Move(10, [StartSize, AddDigit])), Range(384, 559, Move(12, [AppendByte])),
         Range(561, 569, Move(31, [AppendByte, StartSize, AddDigit])), Range(570, 576, Move(12, [AppendByte])),
         Range(577, 582, Move(31, [AppendByte, StartSize, AddDigit])), Range(583, 608, Move(12, [AppendByte])),
         Range(609, 614, Move(31, [AppendByte, StartSize, AddDigit])), Range(615, 639, Move(12, [AppendByte]))],
        Move(0, []))
    case 16 => Row(
        [Single(269, Move(17, [Recheck])), Single(304, Move(2, [AddDigit])), Single(315, Move(54, [])),
         Single(525, Move(47, [AppendByte, Recheck])), Single(560, Move(16, [AddDigit, AppendByte])),
         Single(571, Move(60, [AppendByte]))],
        [Range(305, 313, Move(10, [AddDigit])), Range(321, 326, Move(10, [AddDigit])),
         Range(353, 358, Move(10, [AddDigit])), Range(384, 559, Move(12, [AppendByte])),
         Range(561, 569, Move(31, [AddDigit, AppendByte])), Range(570, 576, Move(12, [AppendByte])),
         Range(577, 582, Move(31, [AddDigit, AppendByte])), Range(583, 608, Move(12, [AppendByte])),
         Range(609, 614, Move(31, [AddDigit, AppendByte])), Range(615, 639, Move(12, [AppendByte]))],
        Move(0, []))
    case 17 => Row(
        [Single(10, Move(18, []))],
        [],
        Move(0, []))
    case 18 => Row(
        [Single(269, Move(9, [Recheck])), Single(522, Move(12, [AppendByte])),
         Single(525, Move(30, [AppendByte, Recheck]))],
        [Range(128, 265, Move(5, [])), Range(267, 303, Move(5, [])),
         Range(304, 313, Move(19, [StartSize, AddDigit])), Range(314, 320, Move(5, [])),
         Range(321, 326, Move(19, [StartSize, AddDigit])), Range(327, 352, Move(5, [])),
         Range(353, 358, Move(19, [StartSize, AddDigit])), Range(359, 383, Move(5, [])),
         Range(384, 559, Move(26, [AppendByte])), Range(560, 569, Move(46, [AppendByte, StartSize, AddDigit])),
         Range(570, 576, Move(26, [AppendByte])), Range(577, 582, Move(46, [AppendByte, StartSize, AddDigit])),
         Range(583, 608, Move(26, [AppendByte])), Range(609, 614, Move(46, [AppendByte, StartSize, AddDigit])),
         Range(615, 639, Move(26, [AppendByte]))],
        Move(0, []))
    case 19 => Row(
        [Single(10, Move(0, [])), Single(13, Move(3, [])), Single(59, Move(20, []))],
        [Range(48, 57, Move(19, [AddDigit])), Range(65, 70, Move(19, [AddDigit])),
         Range(97, 102, Move(19, [AddDigit]))],
        Move(5, []))
    case 20 => Row(
        [Single(10, Move(0, [])), Single(13, Move(6, []))],
        [Range(65, 90, Move(21, [])), Range(97, 122, Move(21, []))],
        Move(5, []))
    case 21 => Row(
        [Single(10, Move(0, [])), Single(13, Move(6, [])), Single(61, Move(22, []))],
        [Range(48, 57, Move(21, [])), Range(65, 90, Move(21, [])), Range(97, 122, Move(21, []))],
        Move(5, []))
    case 22 => Row(
        [Single(10, Move(0, [])), Single(13, Move(6, [])), Single(34, Move(23, []))],
        [Range(65, 90, Move(25, [])), Range(97, 122, Move(25, []))],
        Move(5, []))
    case 23 => Row(
        [Single(10, Move(0, [])), Single(13, Move(6, [])), Single(34, Move(24, []))],
        [],
        Move(23, []))
    case 24 => Row(
        [Single(10, Move(0, [])), Single(13, Move(3, [])), Single(59, Move(20, []))],
        [],
        Move(5, []))
    case 25 => Row(
        [Single(10, Move(0, [])), Single(13, Move(3, [])), Single(59, Move(20, []))],
        [Range(48, 57, Move(25, [])), Range(65, 90, Move(25, [])), Range(97, 122, Move(25, []))],
        Move(5, []))
    case 26 => Row(
        [Single(269, Move(27, [Recheck])), Single(522, Move(12, [AppendByte])),
         Single(525, Move(29, [AppendByte, Recheck]))],
        [Range(128, 265, Move(5, [])), Range(267, 383, Move(5, [])), Range(384, 639, Move(26, [AppendByte]))],
        Move(0, []))
    case 27 => Row(
        [Single(10, Move(28, []))],
        [],
        Move(0, []))
    case 28 => Row(
        [Single(10, Move(0, [])), Single(13, Move(8, []))],
        [Range(48, 57, Move(19, [StartSize, AddDigit])), Range(65, 70, Move(19, [StartSize, AddDigit])),
         Range(97, 102, Move(19, [StartSize, AddDigit]))],
        Move(5, []))
    case 29 => Row(
        [Single(266, Move(28, [])), Single(269, Move(13, [Recheck])), Single(522, Move(18, [AppendByte])),
         Single(525, Move(14, [AppendByte, Recheck]))],
        [Range(384, 639, Move(12, [AppendByte]))],
        Move(0, []))
    case 30 => Row(
        [Single(266, Move(67, [])), Single(269, Move(13, [Recheck])), Single(522, Move(68, [AppendByte])),
         Single(525, Move(14, [AppendByte, Recheck]))],
        [Range(384, 639, Move(12, [AppendByte]))],
        Move(0, []))
    case 31 => Row(
        [Single(269, Move(32, [Recheck])), Single(315, Move(33, [])),
         Single(525, Move(39, [AppendByte, Recheck])), Single(571, Move(40, [AppendByte]))],
        [Range(304, 313, Move(10, [AddDigit])), Range(321, 326, Move(10, [AddDigit])),
         Range(353, 358, Move(10, [AddDigit])), Range(384, 559, Move(12, [AppendByte])),
         Range(560, 569, Move(31, [AddDigit, AppendByte])), Range(570, 576, Move(12, [AppendByte])),
         Range(577, 582, Move(31, [AddDigit, AppendByte])), Range(583, 608, Move(12, [AppendByte])),
         Range(609, 614, Move(31, [AddDigit, AppendByte])), Range(615, 639, Move(12, [AppendByte]))],
        Move(0, []))
    case 32 => Row(
        [Single(10, Move(15, []))],
        [],
        Move(0, []))
    case 39 => Row(
        [Single(266, Move(15, [])), Single(269, Move(13, [Recheck])), Single(522, Move(15, [AppendByte])),
         Single(525, Move(14, [AppendByte, Recheck]))],
        [Range(384, 639, Move(12, [AppendByte]))],
        Move(0, []))
    case 40 => Row(
        [Single(269, Move(13, [Recheck])), Single(525, Move(14, [AppendByte, Recheck]))],
        [Range(321, 346, Move(34, [])), Range(353, 378, Move(34, [])), Range(384, 576, Move(12, [AppendByte])),
         Range(577, 602, Move(41, [AppendByte])), Range(603, 608, Move(12, [AppendByte])),
         Range(609, 634, Move(41, [AppendByte])), Range(635, 639, Move(12, [AppendByte]))],
        Move(0, []))
    case 41 => Row(
        [Single(269, Move(13, [Recheck])), Single(317, Move(35, [])),
         Single(525, Move(14, [AppendByte, Recheck])), Single(573, Move(42, [AppendByte]))],
        [Range(304, 313, Move(34, [])), Range(321, 346, Move(34, [])), Range(353, 378, Move(34, [])),
         Range(384, 559, Move(12, [AppendByte])), Range(560, 569, Move(41, [AppendByte])),
         Range(570, 576, Move(12, [AppendByte])), Range(577, 602, Move(41, [AppendByte])),
         Range(603, 608, Move(12, [AppendByte])), Range(609, 634, Move(41, [AppendByte])),
         Range(635, 639, Move(12, [AppendByte]))],
        Move(0, []))
    case 42 => Row(
        [Single(269, Move(13, [Recheck])), Single(290, Move(36, [])),
         Single(525, Move(14, [AppendByte, Recheck])), Single(546, Move(43, [AppendByte]))],
        [Range(321, 346, Move(38, [])), Range(353, 378, Move(38, [])), Range(384, 576, Move(12, [AppendByte])),
         Range(577, 602, Move(45, [AppendByte])), Range(603, 608, Move(12, [AppendByte])),
         Range(609, 634, Move(45, [AppendByte])), Range(635, 639, Move(12, [AppendByte]))],
        Move(0, []))
    case 43 => Row(
        [Single(269, Move(13, [Recheck])), Single(290, Move(37, [])), Single(522, Move(12, [AppendByte])),
         Single(525, Move(14, [AppendByte, Recheck])), Single(546, Move(44, [AppendByte]))],
        [Range(128, 265, Move(36, [])), Range(267, 383, Move(36, [])), Range(384, 639, Move(43, [AppendByte]))],
        Move(0, []))
    case 44 => Row(
        [Single(269, Move(32, [Recheck])), Single(315, Move(33, [])),
         Single(525, Move(39, [AppendByte, Recheck])), Single(571, Move(40, [AppendByte]))],
        [Range(384, 639, Move(12, [AppendByte]))],
        Move(0, []))
    case 45 => Row(
        [Single(269, Move(32, [Recheck])), Single(315, Move(33, [])),
         Single(525, Move(39, [AppendByte, Recheck])), Single(571, Move(40, [AppendByte]))],
        [Range(304, 313, Move(38, [])), Range(321, 346, Move(38, [])), Range(353, 378, Move(38, [])),
         Range(384, 559, Move(12, [AppendByte])), Range(560, 569, Move(45, [AppendByte])),
         Range(570, 576, Move(12, [AppendByte])), Range(577, 602, Move(45, [AppendByte])),
         Range(603, 608, Move(12, [AppendByte])), Range(609, 634, Move(45, [AppendByte])),
         Range(635, 639, Move(12, [AppendByte]))],
        Move(0, []))
    case 46 => Row(
        [Single(269, Move(17, [Recheck])), Single(315, Move(20, [])), Single(522, Move(12, [AppendByte])),
         Single(525, Move(47, [AppendByte, Recheck])), Single(571, Move(48, [AppendByte]))],
        [Range(128, 265, Move(5, [])), Range(267, 303, Move(5, [])), Range(304, 313, Move(19, [AddDigit])),
         Range(314, 320, Move(5, [])), Range(321, 326, Move(19, [AddDigit])), Range(327, 352, Move(5, [])),
         Range(353, 358, Move(19, [AddDigit])), Range(359, 383, Move(5, [])),
         Range(384, 559, Move(26, [AppendByte])), Range(560, 569, Move(46, [AddDigit, AppendByte])),
         Range(570, 576, Move(26, [AppendByte])), Range(577, 582, Move(46, [AddDigit, AppendByte])),
         Range(583, 608, Move(26, [AppendByte])), Range(609, 614, Move(46, [AddDigit, AppendByte])),
         Range(615, 639, Move(26, [AppendByte]))],
        Move(0, []))
    case 47 => Row(
        [Single(266, Move(18, [])), Single(269, Move(13, [Recheck])), Single(522, Move(18, [AppendByte])),
         Single(525, Move(14, [AppendByte, Recheck]))],
        [Range(384, 639, Move(12, [AppendByte]))],
        Move(0, []))
    case 48 => Row(
        [Single(269, Move(27, [Recheck])), Single(522, Move(12, [AppendByte])),
         Single(525, Move(29, [AppendByte, Recheck]))],
        [Range(128, 265, Move(5, [])), Range(267, 320, Move(5, [])), Range(321, 346, Move(21, [])),
         Range(347, 352, Move(5, [])), Range(353, 378, Move(21, [])), Range(379, 383, Move(5, [])),
         Range(384, 576, Move(26, [AppendByte])), Range(577, 602, Move(49, [AppendByte])),
         Range(603, 608, Move(26, [AppendByte])), Range(609, 634, Move(49, [AppendByte])),
         Range(635, 639, Move(26, [AppendByte]))],
        Move(0, []))
    case 49 => Row(
        [Single(269, Move(27, [Recheck])), Single(317, Move(22, [])), Single(522, Move(12, [AppendByte])),
         Single(525, Move(29, [AppendByte, Recheck])), Single(573, Move(50, [AppendByte]))],
        [Range(128, 265, Move(5, [])), Range(267, 303, Move(5, [])), Range(304, 313, Move(21, [])),
         Range(314, 320, Move(5, [])), Range(321, 346, Move(21, [])), Range(347, 352, Move(5, [])),
         Range(353, 378, Move(21, [])), Range(379, 383, Move(5, [])), Range(384, 559, Move(26, [AppendByte])),
         Range(560, 569, Move(49, [AppendByte])), Range(570, 576, Move(26, [AppendByte])),
         Range(577, 602, Move(49, [AppendByte])), Range(603, 608, Move(26, [AppendByte])),
         Range(609, 634, Move(49, [AppendByte])), Range(635, 639, Move(26, [AppendByte]))],
        Move(0, []))
    case 50 => Row(
        [Single(269, Move(27, [Recheck])), Single(290, Move(23, [])), Single(522, Move(12, [AppendByte])),
         Single(525, Move(29, [AppendByte, Recheck])), Single(546, Move(51, [AppendByte]))],
        [Range(128, 265, Move(5, [])), Range(267, 320, Move(5, [])), Range(321, 346, Move(25, [])),
         Range(347, 352, Move(5, [])), Range(353, 378, Move(25, [])), Range(379, 383, Move(5, [])),
         Range(384, 576, Move(26, [AppendByte])), Range(577, 602, Move(53, [AppendByte])),
         Range(603, 608, Move(26, [AppendByte])), Range(609, 634, Move(53, [AppendByte])),
         Range(635, 639, Move(26, [AppendByte]))],
        Move(0, []))
    case 51 => Row(
        [Single(269, Move(27, [Recheck])), Single(290, Move(24, [])), Single(522, Move(12, [AppendByte])),
         Single(525, Move(29, [AppendByte, Recheck])), Single(546, Move(52, [AppendByte]))],
        [Range(128, 265, Move(23, [])), Range(267, 383, Move(23, [])), Range(384, 639, Move(51, [AppendByte]))],
        Move(0, []))
    case 52 => Row(
        [Single(269, Move(17, [Recheck])), Single(315, Move(20, [])), Single(522, Move(12, [AppendByte])),
         Single(525, Move(47, [AppendByte, Recheck])), Single(571, Move(48, [AppendByte]))],
        [Range(128, 265, Move(5, [])), Range(267, 383, Move(5, [])), Range(384, 639, Move(26, [AppendByte]))],
        Move(0, []))
    case 53 => Row(
        [Single(269, Move(17, [Recheck])), Single(315, Move(20, [])), Single(522, Move(12, [AppendByte])),
         Single(525, Move(47, [AppendByte, Recheck])), Single(571, Move(48, [AppendByte]))],
        [Range(128, 265, Move(5, [])), Range(267, 303, Move(5, [])), Range(304, 313, Move(25, [])),
         Range(314, 320, Move(5, [])), Range(321, 346, Move(25, [])), Range(347, 352, Move(5, [])),
         Range(353, 378, Move(25, [])), Range(379, 383, Move(5, [])), Range(384, 559, Move(26, [AppendByte])),
         Range(560, 569, Move(53, [AppendByte])), Range(570, 576, Move(26, [AppendByte])),
         Range(577, 602, Move(53, [AppendByte])), Range(603, 608, Move(26, [AppendByte])),
         Range(609, 634, Move(53, [AppendByte])), Range(635, 639, Move(26, [AppendByte]))],
        Move(0, []))
    case 60 => Row(
        [Single(269, Move(13, [Recheck])), Single(525, Move(14, [AppendByte, Recheck]))],
        [Range(321, 346, Move(55, [])), Range(353, 378, Move(55, [])), Range(384, 576, Move(12, [AppendByte])),
         Range(577, 602, Move(61, [AppendByte])), Range(603, 608, Move(12, [AppendByte])),
         Range(609, 634, Move(61, [AppendByte])), Range(635, 639, Move(12, [AppendByte]))],
        Move(0, []))
    case 61 => Row(
        [Single(269, Move(13, [Recheck])), Single(317, Move(56, [])),
         Single(525, Move(14, [AppendByte, Recheck])), Single(573, Move(62, [AppendByte]))],
        [Range(304, 313, Move(55, [])), Range(321, 346, Move(55, [])), Range(353, 378, Move(55, [])),
         Range(384, 559, Move(12, [AppendByte])), Range(560, 569, Move(61, [AppendByte])),
         Range(570, 576, Move(12, [AppendByte])), Range(577, 602, Move(61, [AppendByte])),
         Range(603, 608, Move(12, [AppendByte])), Range(609, 634, Move(61, [AppendByte])),
         Range(635, 639, Move(12, [AppendByte]))],
        Move(0, []))
    case 62 => Row(
        [Single(269, Move(13, [Recheck])), Single(290, Move(57, [])),
         Single(525, Move(14, [AppendByte, Recheck])), Single(546, Move(63, [AppendByte]))],
        [Range(321, 346, Move(59, [])), Range(353, 378, Move(59, [])), Range(384, 576, Move(12, [AppendByte])),
         Range(577, 602, Move(65, [AppendByte])), Range(603, 608, Move(12, [AppendByte])),
         Range(609, 634, Move(65, [AppendByte])), Range(635, 639, Move(12, [AppendByte]))],
        Move(0, []))
    case 63 => Row(
        [Single(269, Move(13, [Recheck])), Single(290, Move(58, [])), Single(522, Move(12, [AppendByte])),
         Single(525, Move(14, [AppendByte, Recheck])), Single(546, Move(64, [AppendByte]))],
        [Range(128, 265, Move(57, [])), Range(267, 383, Move(57, [])), Range(384, 639, Move(63, [AppendByte]))],
        Move(0, []))
    case 64 => Row(
        [Single(269, Move(17, [Recheck])), Single(315, Move(54, [])),
         Single(525, Move(47, [AppendByte, Recheck])), Single(571, Move(60, [AppendByte]))],
        [Range(384, 639, Move(12, [AppendByte]))],
        Move(0, []))
    case 65 => Row(
        [Single(269, Move(17, [Recheck])), Single(315, Move(54, [])),
         Single(525, Move(47, [AppendByte, Recheck])), Single(571, Move(60, [AppendByte]))],
        [Range(304, 313, Move(59, [])), Range(321, 346, Move(59, [])), Range(353, 378, Move(59, [])),
         Range(384, 559, Move(12, [AppendByte])), Range(560, 569, Move(65, [AppendByte])),
         Range(570, 576, Move(12, [AppendByte])), Range(577, 602, Move(65, [AppendByte])),
         Range(603, 608, Move(12, [AppendByte])), Range(609, 634, Move(65, [AppendByte])),
         Range(635, 639, Move(12, [AppendByte]))],
        Move(0, []))
    case _ => Row(
        [Single(269, Move(13, [Recheck])), Single(304, Move(2, [StartSize, AddDigit])),
         Single(525, Move(14, [AppendByte, Recheck])), Single(560, Move(16, [AppendByte, StartSize, AddDigit]))],
        [Range(305, 313, Move(10, [StartSize, AddDigit])), Range(321, 326, Move(10, [StartSize, AddDigit])),
         Range(353, 358, Move(10, [StartSize, AddDigit])), Range(384, 559, Move(12, [AppendByte])),
         Range(561, 569, Move(31, [AppendByte, StartSize, AddDigit])), Range(570, 576, Move(12, [AppendByte])),
         Range(577, 582, Move(31, [AppendByte, StartSize, AddDigit])), Range(583, 608, Move(12, [AppendByte])),
         Range(609, 614, Move(31, [AppendByte, StartSize, AddDigit])), Range(615, 639, Move(12, [AppendByte]))],
        Move(0, []))
  }
}
