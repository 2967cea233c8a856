// The two checksum tables of the serial protocol, entry by entry, and the check
// that every entry is what eight shift steps of the reflected polynomial give.
module CrcTables {
  // One shift step of the reflected 0x8005 polynomial.
  function Step16(c: bv16): bv16 {
    if c & 1 == 1 then (c >> 1) ^ 0xA001 else c >> 1
  }

  // One shift step of the reflected 0x04C11DB7 polynomial.
  function Step32(c: bv32): bv32 {
    if c & 1 == 1 then (c >> 1) ^ 0xEDB88320 else c >> 1
  }

  function Steps16(n: nat, c: bv16): bv16 {
    if n == 0 then c else Steps16(n - 1, Step16(c))
  }

  function Steps32(n: nat, c: bv32): bv32 {
    if n == 0 then c else Steps32(n - 1, Step32(c))
  }

  function BitsPerByte(): nat { 8 }

  // One byte shifted out of the register.
  function Byte16(c: bv16): bv16 {
    Steps16(BitsPerByte(), c)
  }

  function Byte32(c: bv32): bv32 {
    Steps32(BitsPerByte(), c)
  }

  lemma Eight16(c: bv16)
    ensures Byte16(c) == Step16(Step16(Step16(Step16(Step16(Step16(Step16(Step16(c))))))))
  {
    Four16(4, c);
    Four16(0, Step16(Step16(Step16(Step16(c)))));
  }

  lemma Four16(n: nat, c: bv16)
    ensures Steps16(n + 4, c) == Steps16(n, Step16(Step16(Step16(Step16(c)))))
  {
    var c1 := Step16(c);
    var c2 := Step16(c1);
    assert Steps16(n + 4, c) == Steps16(n + 3, c1) == Steps16(n + 2, c2);
    assert Steps16(n + 2, c2) == Steps16(n + 1, Step16(c2)) == Steps16(n, Step16(Step16(c2)));
  }

  lemma Eight32(c: bv32)
    ensures Byte32(c) == Step32(Step32(Step32(Step32(Step32(Step32(Step32(Step32(c))))))))
  {
    Four32(4, c);
    Four32(0, Step32(Step32(Step32(Step32(c)))));
  }

  lemma Four32(n: nat, c: bv32)
    ensures Steps32(n + 4, c) == Steps32(n, Step32(Step32(Step32(Step32(c)))))
  {
    var c1 := Step32(c);
    var c2 := Step32(c1);
    assert Steps32(n + 4, c) == Steps32(n + 3, c1) == Steps32(n + 2, c2);
    assert Steps32(n + 2, c2) == Steps32(n + 1, Step32(c2)) == Steps32(n, Step32(Step32(c2)));
  }

  function Row16_0(i: bv8): bv16 {
    match i
    case 0x00 => 0x0000 case 0x01 => 0xc0c1 case 0x02 => 0xc181 case 0x03 => 0x0140
    case 0x04 => 0xc301 case 0x05 => 0x03c0 case 0x06 => 0x0280 case 0x07 => 0xc241
    case 0x08 => 0xc601 case 0x09 => 0x06c0 case 0x0A => 0x0780 case 0x0B => 0xc741
    case 0x0C => 0x0500 case 0x0D => 0xc5c1 case 0x0E => 0xc481 case _ => 0x0440
  }

  function Row16_1(i: bv8): bv16 {
    match i
    case 0x10 => 0xcc01 case 0x11 => 0x0cc0 case 0x12 => 0x0d80 case 0x13 => 0xcd41
    case 0x14 => 0x0f00 case 0x15 => 0xcfc1 case 0x16 => 0xce81 case 0x17 => 0x0e40
    case 0x18 => 0x0a00 case 0x19 => 0xcac1 case 0x1A => 0xcb81 case 0x1B => 0x0b40
    case 0x1C => 0xc901 case 0x1D => 0x09c0 case 0x1E => 0x0880 case _ => 0xc841
  }

  function Row16_2(i: bv8): bv16 {
    match i
    case 0x20 => 0xd801 case 0x21 => 0x18c0 case 0x22 => 0x1980 case 0x23 => 0xd941
    case 0x24 => 0x1b00 case 0x25 => 0xdbc1 case 0x26 => 0xda81 case 0x27 => 0x1a40
    case 0x28 => 0x1e00 case 0x29 => 0xdec1 case 0x2A => 0xdf81 case 0x2B => 0x1f40
    case 0x2C => 0xdd01 case 0x2D => 0x1dc0 case 0x2E => 0x1c80 case _ => 0xdc41
  }

  function Row16_3(i: bv8): bv16 {
    match i
    case 0x30 => 0x1400 case 0x31 => 0xd4c1 case 0x32 => 0xd581 case 0x33 => 0x1540
    case 0x34 => 0xd701 case 0x35 => 0x17c0 case 0x36 => 0x1680 case 0x37 => 0xd641
    case 0x38 => 0xd201 case 0x39 => 0x12c0 case 0x3A => 0x1380 case 0x3B => 0xd341
    case 0x3C => 0x1100 case 0x3D => 0xd1c1 case 0x3E => 0xd081 case _ => 0x1040
  }

  function Row16_4(i: bv8): bv16 {
    match i
    case 0x40 => 0xf001 case 0x41 => 0x30c0 case 0x42 => 0x3180 case 0x43 => 0xf141
    case 0x44 => 0x3300 case 0x45 => 0xf3c1 case 0x46 => 0xf281 case 0x47 => 0x3240
    case 0x48 => 0x3600 case 0x49 => 0xf6c1 case 0x4A => 0xf781 case 0x4B => 0x3740
    case 0x4C => 0xf501 case 0x4D => 0x35c0 case 0x4E => 0x3480 case _ => 0xf441
  }

  function Row16_5(i: bv8): bv16 {
    match i
    case 0x50 => 0x3c00 case 0x51 => 0xfcc1 case 0x52 => 0xfd81 case 0x53 => 0x3d40
    case 0x54 => 0xff01 case 0x55 => 0x3fc0 case 0x56 => 0x3e80 case 0x57 => 0xfe41
    case 0x58 => 0xfa01 case 0x59 => 0x3ac0 case 0x5A => 0x3b80 case 0x5B => 0xfb41
    case 0x5C => 0x3900 case 0x5D => 0xf9c1 case 0x5E => 0xf881 case _ => 0x3840
  }

  function Row16_6(i: bv8): bv16 {
    match i
    case 0x60 => 0x2800 case 0x61 => 0xe8c1 case 0x62 => 0xe981 case 0x63 => 0x2940
    case 0x64 => 0xeb01 case 0x65 => 0x2bc0 case 0x66 => 0x2a80 case 0x67 => 0xea41
    case 0x68 => 0xee01 case 0x69 => 0x2ec0 case 0x6A => 0x2f80 case 0x6B => 0xef41
    case 0x6C => 0x2d00 case 0x6D => 0xedc1 case 0x6E => 0xec81 case _ => 0x2c40
  }

  function Row16_7(i: bv8): bv16 {
    match i
    case 0x70 => 0xe401 case 0x71 => 0x24c0 case 0x72 => 0x2580 case 0x73 => 0xe541
    case 0x74 => 0x2700 case 0x75 => 0xe7c1 case 0x76 => 0xe681 case 0x77 => 0x2640
    case 0x78 => 0x2200 case 0x79 => 0xe2c1 case 0x7A => 0xe381 case 0x7B => 0x2340
    case 0x7C => 0xe101 case 0x7D => 0x21c0 case 0x7E => 0x2080 case _ => 0xe041
  }

  function Row16_8(i: bv8): bv16 {
    match i
    case 0x80 => 0xa001 case 0x81 => 0x60c0 case 0x82 => 0x6180 case 0x83 => 0xa141
    case 0x84 => 0x6300 case 0x85 => 0xa3c1 case 0x86 => 0xa281 case 0x87 => 0x6240
    case 0x88 => 0x6600 case 0x89 => 0xa6c1 case 0x8A => 0xa781 case 0x8B => 0x6740
    case 0x8C => 0xa501 case 0x8D => 0x65c0 case 0x8E => 0x6480 case _ => 0xa441
  }

  function Row16_9(i: bv8): bv16 {
    match i
    case 0x90 => 0x6c00 case 0x91 => 0xacc1 case 0x92 => 0xad81 case 0x93 => 0x6d40
    case 0x94 => 0xaf01 case 0x95 => 0x6fc0 case 0x96 => 0x6e80 case 0x97 => 0xae41
    case 0x98 => 0xaa01 case 0x99 => 0x6ac0 case 0x9A => 0x6b80 case 0x9B => 0xab41
    case 0x9C => 0x6900 case 0x9D => 0xa9c1 case 0x9E => 0xa881 case _ => 0x6840
  }

  function Row16_A(i: bv8): bv16 {
    match i
    case 0xA0 => 0x7800 case 0xA1 => 0xb8c1 case 0xA2 => 0xb981 case 0xA3 => 0x7940
    case 0xA4 => 0xbb01 case 0xA5 => 0x7bc0 case 0xA6 => 0x7a80 case 0xA7 => 0xba41
    case 0xA8 => 0xbe01 case 0xA9 => 0x7ec0 case 0xAA => 0x7f80 case 0xAB => 0xbf41
    case 0xAC => 0x7d00 case 0xAD => 0xbdc1 case 0xAE => 0xbc81 case _ => 0x7c40
  }

  function Row16_B(i: bv8): bv16 {
    match i
    case 0xB0 => 0xb401 case 0xB1 => 0x74c0 case 0xB2 => 0x7580 case 0xB3 => 0xb541
    case 0xB4 => 0x7700 case 0xB5 => 0xb7c1 case 0xB6 => 0xb681 case 0xB7 => 0x7640
    case 0xB8 => 0x7200 case 0xB9 => 0xb2c1 case 0xBA => 0xb381 case 0xBB => 0x7340
    case 0xBC => 0xb101 case 0xBD => 0x71c0 case 0xBE => 0x7080 case _ => 0xb041
  }

  function Row16_C(i: bv8): bv16 {
    match i
    case 0xC0 => 0x5000 case 0xC1 => 0x90c1 case 0xC2 => 0x9181 case 0xC3 => 0x5140
    case 0xC4 => 0x9301 case 0xC5 => 0x53c0 case 0xC6 => 0x5280 case 0xC7 => 0x9241
    case 0xC8 => 0x9601 case 0xC9 => 0x56c0 case 0xCA => 0x5780 case 0xCB => 0x9741
    case 0xCC => 0x5500 case 0xCD => 0x95c1 case 0xCE => 0x9481 case _ => 0x5440
  }

  function Row16_D(i: bv8): bv16 {
    match i
    case 0xD0 => 0x9c01 case 0xD1 => 0x5cc0 case 0xD2 => 0x5d80 case 0xD3 => 0x9d41
    case 0xD4 => 0x5f00 case 0xD5 => 0x9fc1 case 0xD6 => 0x9e81 case 0xD7 => 0x5e40
    case 0xD8 => 0x5a00 case 0xD9 => 0x9ac1 case 0xDA => 0x9b81 case 0xDB => 0x5b40
    case 0xDC => 0x9901 case 0xDD => 0x59c0 case 0xDE => 0x5880 case _ => 0x9841
  }

  function Row16_E(i: bv8): bv16 {
    match i
    case 0xE0 => 0x8801 case 0xE1 => 0x48c0 case 0xE2 => 0x4980 case 0xE3 => 0x8941
    case 0xE4 => 0x4b00 case 0xE5 => 0x8bc1 case 0xE6 => 0x8a81 case 0xE7 => 0x4a40
    case 0xE8 => 0x4e00 case 0xE9 => 0x8ec1 case 0xEA => 0x8f81 case 0xEB => 0x4f40
    case 0xEC => 0x8d01 case 0xED => 0x4dc0 case 0xEE => 0x4c80 case _ => 0x8c41
  }

  function Row16_F(i: bv8): bv16 {
    match i
    case 0xF0 => 0x4400 case 0xF1 => 0x84c1 case 0xF2 => 0x8581 case 0xF3 => 0x4540
    case 0xF4 => 0x8701 case 0xF5 => 0x47c0 case 0xF6 => 0x4680 case 0xF7 => 0x8641
    case 0xF8 => 0x8201 case 0xF9 => 0x42c0 case 0xFA => 0x4380 case 0xFB => 0x8341
    case 0xFC => 0x4100 case 0xFD => 0x81c1 case 0xFE => 0x8081 case _ => 0x4040
  }

  // crc_tab16, its row chosen by the high half of the index.
  function Table16(i: bv8): bv16 {
    match i & 0xF0
    case 0x00 => Row16_0(i) case 0x10 => Row16_1(i) case 0x20 => Row16_2(i) case 0x30 => Row16_3(i)
    case 0x40 => Row16_4(i) case 0x50 => Row16_5(i) case 0x60 => Row16_6(i) case 0x70 => Row16_7(i)
    case 0x80 => Row16_8(i) case 0x90 => Row16_9(i) case 0xA0 => Row16_A(i) case 0xB0 => Row16_B(i)
    case 0xC0 => Row16_C(i) case 0xD0 => Row16_D(i) case 0xE0 => Row16_E(i) case _ => Row16_F(i)
  }

  function Row32_0(i: bv8): bv32 {
    match i
    case 0x00 => 0x00000000 case 0x01 => 0x77073096 case 0x02 => 0xee0e612c case 0x03 => 0x990951ba
    case 0x04 => 0x076dc419 case 0x05 => 0x706af48f case 0x06 => 0xe963a535 case 0x07 => 0x9e6495a3
    case 0x08 => 0x0edb8832 case 0x09 => 0x79dcb8a4 case 0x0A => 0xe0d5e91e case 0x0B => 0x97d2d988
    case 0x0C => 0x09b64c2b case 0x0D => 0x7eb17cbd case 0x0E => 0xe7b82d07 case _ => 0x90bf1d91
  }

  function Row32_1(i: bv8): bv32 {
    match i
    case 0x10 => 0x1db71064 case 0x11 => 0x6ab020f2 case 0x12 => 0xf3b97148 case 0x13 => 0x84be41de
    case 0x14 => 0x1adad47d case 0x15 => 0x6ddde4eb case 0x16 => 0xf4d4b551 case 0x17 => 0x83d385c7
    case 0x18 => 0x136c9856 case 0x19 => 0x646ba8c0 case 0x1A => 0xfd62f97a case 0x1B => 0x8a65c9ec
    case 0x1C => 0x14015c4f case 0x1D => 0x63066cd9 case 0x1E => 0xfa0f3d63 case _ => 0x8d080df5
  }

  function Row32_2(i: bv8): bv32 {
    match i
    case 0x20 => 0x3b6e20c8 case 0x21 => 0x4c69105e case 0x22 => 0xd56041e4 case 0x23 => 0xa2677172
    case 0x24 => 0x3c03e4d1 case 0x25 => 0x4b04d447 case 0x26 => 0xd20d85fd case 0x27 => 0xa50ab56b
    case 0x28 => 0x35b5a8fa case 0x29 => 0x42b2986c case 0x2A => 0xdbbbc9d6 case 0x2B => 0xacbcf940
    case 0x2C => 0x32d86ce3 case 0x2D => 0x45df5c75 case 0x2E => 0xdcd60dcf case _ => 0xabd13d59
  }

  function Row32_3(i: bv8): bv32 {
    match i
    case 0x30 => 0x26d930ac case 0x31 => 0x51de003a case 0x32 => 0xc8d75180 case 0x33 => 0xbfd06116
    case 0x34 => 0x21b4f4b5 case 0x35 => 0x56b3c423 case 0x36 => 0xcfba9599 case 0x37 => 0xb8bda50f
    case 0x38 => 0x2802b89e case 0x39 => 0x5f058808 case 0x3A => 0xc60cd9b2 case 0x3B => 0xb10be924
    case 0x3C => 0x2f6f7c87 case 0x3D => 0x58684c11 case 0x3E => 0xc1611dab case _ => 0xb6662d3d
  }

  function Row32_4(i: bv8): bv32 {
    match i
    case 0x40 => 0x76dc4190 case 0x41 => 0x01db7106 case 0x42 => 0x98d220bc case 0x43 => 0xefd5102a
    case 0x44 => 0x71b18589 case 0x45 => 0x06b6b51f case 0x46 => 0x9fbfe4a5 case 0x47 => 0xe8b8d433
    case 0x48 => 0x7807c9a2 case 0x49 => 0x0f00f934 case 0x4A => 0x9609a88e case 0x4B => 0xe10e9818
    case 0x4C => 0x7f6a0dbb case 0x4D => 0x086d3d2d case 0x4E => 0x91646c97 case _ => 0xe6635c01
  }

  function Row32_5(i: bv8): bv32 {
    match i
    case 0x50 => 0x6b6b51f4 case 0x51 => 0x1c6c6162 case 0x52 => 0x856530d8 case 0x53 => 0xf262004e
    case 0x54 => 0x6c0695ed case 0x55 => 0x1b01a57b case 0x56 => 0x8208f4c1 case 0x57 => 0xf50fc457
    case 0x58 => 0x65b0d9c6 case 0x59 => 0x12b7e950 case 0x5A => 0x8bbeb8ea case 0x5B => 0xfcb9887c
    case 0x5C => 0x62dd1ddf case 0x5D => 0x15da2d49 case 0x5E => 0x8cd37cf3 case _ => 0xfbd44c65
  }

  function Row32_6(i: bv8): bv32 {
    match i
    case 0x60 => 0x4db26158 case 0x61 => 0x3ab551ce case 0x62 => 0xa3bc0074 case 0x63 => 0xd4bb30e2
    case 0x64 => 0x4adfa541 case 0x65 => 0x3dd895d7 case 0x66 => 0xa4d1c46d case 0x67 => 0xd3d6f4fb
    case 0x68 => 0x4369e96a case 0x69 => 0x346ed9fc case 0x6A => 0xad678846 case 0x6B => 0xda60b8d0
    case 0x6C => 0x44042d73 case 0x6D => 0x33031de5 case 0x6E => 0xaa0a4c5f case _ => 0xdd0d7cc9
  }

  function Row32_7(i: bv8): bv32 {
    match i
    case 0x70 => 0x5005713c case 0x71 => 0x270241aa case 0x72 => 0xbe0b1010 case 0x73 => 0xc90c2086
    case 0x74 => 0x5768b525 case 0x75 => 0x206f85b3 case 0x76 => 0xb966d409 case 0x77 => 0xce61e49f
    case 0x78 => 0x5edef90e case 0x79 => 0x29d9c998 case 0x7A => 0xb0d09822 case 0x7B => 0xc7d7a8b4
    case 0x7C => 0x59b33d17 case 0x7D => 0x2eb40d81 case 0x7E => 0xb7bd5c3b case _ => 0xc0ba6cad
  }

  function Row32_8(i: bv8): bv32 {
    match i
    case 0x80 => 0xedb88320 case 0x81 => 0x9abfb3b6 case 0x82 => 0x03b6e20c case 0x83 => 0x74b1d29a
    case 0x84 => 0xead54739 case 0x85 => 0x9dd277af case 0x86 => 0x04db2615 case 0x87 => 0x73dc1683
    case 0x88 => 0xe3630b12 case 0x89 => 0x94643b84 case 0x8A => 0x0d6d6a3e case 0x8B => 0x7a6a5aa8
    case 0x8C => 0xe40ecf0b case 0x8D => 0x9309ff9d case 0x8E => 0x0a00ae27 case _ => 0x7d079eb1
  }

  function Row32_9(i: bv8): bv32 {
    match i
    case 0x90 => 0xf00f9344 case 0x91 => 0x8708a3d2 case 0x92 => 0x1e01f268 case 0x93 => 0x6906c2fe
    case 0x94 => 0xf762575d case 0x95 => 0x806567cb case 0x96 => 0x196c3671 case 0x97 => 0x6e6b06e7
    case 0x98 => 0xfed41b76 case 0x99 => 0x89d32be0 case 0x9A => 0x10da7a5a case 0x9B => 0x67dd4acc
    case 0x9C => 0xf9b9df6f case 0x9D => 0x8ebeeff9 case 0x9E => 0x17b7be43 case _ => 0x60b08ed5
  }

  function Row32_A(i: bv8): bv32 {
    match i
    case 0xA0 => 0xd6d6a3e8 case 0xA1 => 0xa1d1937e case 0xA2 => 0x38d8c2c4 case 0xA3 => 0x4fdff252
    case 0xA4 => 0xd1bb67f1 case 0xA5 => 0xa6bc5767 case 0xA6 => 0x3fb506dd case 0xA7 => 0x48b2364b
    case 0xA8 => 0xd80d2bda case 0xA9 => 0xaf0a1b4c case 0xAA => 0x36034af6 case 0xAB => 0x41047a60
    case 0xAC => 0xdf60efc3 case 0xAD => 0xa867df55 case 0xAE => 0x316e8eef case _ => 0x4669be79
  }

  function Row32_B(i: bv8): bv32 {
    match i
    case 0xB0 => 0xcb61b38c case 0xB1 => 0xbc66831a case 0xB2 => 0x256fd2a0 case 0xB3 => 0x5268e236
    case 0xB4 => 0xcc0c7795 case 0xB5 => 0xbb0b4703 case 0xB6 => 0x220216b9 case 0xB7 => 0x5505262f
    case 0xB8 => 0xc5ba3bbe case 0xB9 => 0xb2bd0b28 case 0xBA => 0x2bb45a92 case 0xBB => 0x5cb36a04
    case 0xBC => 0xc2d7ffa7 case 0xBD => 0xb5d0cf31 case 0xBE => 0x2cd99e8b case _ => 0x5bdeae1d
  }

  function Row32_C(i: bv8): bv32 {
    match i
    case 0xC0 => 0x9b64c2b0 case 0xC1 => 0xec63f226 case 0xC2 => 0x756aa39c case 0xC3 => 0x026d930a
    case 0xC4 => 0x9c0906a9 case 0xC5 => 0xeb0e363f case 0xC6 => 0x72076785 case 0xC7 => 0x05005713
    case 0xC8 => 0x95bf4a82 case 0xC9 => 0xe2b87a14 case 0xCA => 0x7bb12bae case 0xCB => 0x0cb61b38
    case 0xCC => 0x92d28e9b case 0xCD => 0xe5d5be0d case 0xCE => 0x7cdcefb7 case _ => 0x0bdbdf21
  }

  function Row32_D(i: bv8): bv32 {
    match i
    case 0xD0 => 0x86d3d2d4 case 0xD1 => 0xf1d4e242 case 0xD2 => 0x68ddb3f8 case 0xD3 => 0x1fda836e
    case 0xD4 => 0x81be16cd case 0xD5 => 0xf6b9265b case 0xD6 => 0x6fb077e1 case 0xD7 => 0x18b74777
    case 0xD8 => 0x88085ae6 case 0xD9 => 0xff0f6a70 case 0xDA => 0x66063bca case 0xDB => 0x11010b5c
    case 0xDC => 0x8f659eff case 0xDD => 0xf862ae69 case 0xDE => 0x616bffd3 case _ => 0x166ccf45
  }

  function Row32_E(i: bv8): bv32 {
    match i
    case 0xE0 => 0xa00ae278 case 0xE1 => 0xd70dd2ee case 0xE2 => 0x4e048354 case 0xE3 => 0x3903b3c2
    case 0xE4 => 0xa7672661 case 0xE5 => 0xd06016f7 case 0xE6 => 0x4969474d case 0xE7 => 0x3e6e77db
    case 0xE8 => 0xaed16a4a case 0xE9 => 0xd9d65adc case 0xEA => 0x40df0b66 case 0xEB => 0x37d83bf0
    case 0xEC => 0xa9bcae53 case 0xED => 0xdebb9ec5 case 0xEE => 0x47b2cf7f case _ => 0x30b5ffe9
  }

  function Row32_F(i: bv8): bv32 {
    match i
    case 0xF0 => 0xbdbdf21c case 0xF1 => 0xcabac28a case 0xF2 => 0x53b39330 case 0xF3 => 0x24b4a3a6
    case 0xF4 => 0xbad03605 case 0xF5 => 0xcdd70693 case 0xF6 => 0x54de5729 case 0xF7 => 0x23d967bf
    case 0xF8 => 0xb3667a2e case 0xF9 => 0xc4614ab8 case 0xFA => 0x5d681b02 case 0xFB => 0x2a6f2b94
    case 0xFC => 0xb40bbe37 case 0xFD => 0xc30c8ea1 case 0xFE => 0x5a05df1b case _ => 0x2d02ef8d
  }

  // crc_tab32, its row chosen by the high half of the index.
  function Table32(i: bv8): bv32 {
    match i & 0xF0
    case 0x00 => Row32_0(i) case 0x10 => Row32_1(i) case 0x20 => Row32_2(i) case 0x30 => Row32_3(i)
    case 0x40 => Row32_4(i) case 0x50 => Row32_5(i) case 0x60 => Row32_6(i) case 0x70 => Row32_7(i)
    case 0x80 => Row32_8(i) case 0x90 => Row32_9(i) case 0xA0 => Row32_A(i) case 0xB0 => Row32_B(i)
    case 0xC0 => Row32_C(i) case 0xD0 => Row32_D(i) case 0xE0 => Row32_E(i) case _ => Row32_F(i)
  }

  // Each row is a small bit-vector problem of its own.
  lemma Row16Check_0(i: bv8) requires i & 0xF0 == 0x00 ensures Row16_0(i) == Byte16(i as bv16) { Eight16(i as bv16); }
  lemma Row16Check_1(i: bv8) requires i & 0xF0 == 0x10 ensures Row16_1(i) == Byte16(i as bv16) { Eight16(i as bv16); }
  lemma Row16Check_2(i: bv8) requires i & 0xF0 == 0x20 ensures Row16_2(i) == Byte16(i as bv16) { Eight16(i as bv16); }
  lemma Row16Check_3(i: bv8) requires i & 0xF0 == 0x30 ensures Row16_3(i) == Byte16(i as bv16) { Eight16(i as bv16); }
  lemma Row16Check_4(i: bv8) requires i & 0xF0 == 0x40 ensures Row16_4(i) == Byte16(i as bv16) { Eight16(i as bv16); }
  lemma Row16Check_5(i: bv8) requires i & 0xF0 == 0x50 ensures Row16_5(i) == Byte16(i as bv16) { Eight16(i as bv16); }
  lemma Row16Check_6(i: bv8) requires i & 0xF0 == 0x60 ensures Row16_6(i) == Byte16(i as bv16) { Eight16(i as bv16); }
  lemma Row16Check_7(i: bv8) requires i & 0xF0 == 0x70 ensures Row16_7(i) == Byte16(i as bv16) { Eight16(i as bv16); }
  lemma Row16Check_8(i: bv8) requires i & 0xF0 == 0x80 ensures Row16_8(i) == Byte16(i as bv16) { Eight16(i as bv16); }
  lemma Row16Check_9(i: bv8) requires i & 0xF0 == 0x90 ensures Row16_9(i) == Byte16(i as bv16) { Eight16(i as bv16); }
  lemma Row16Check_A(i: bv8) requires i & 0xF0 == 0xA0 ensures Row16_A(i) == Byte16(i as bv16) { Eight16(i as bv16); }
  lemma Row16Check_B(i: bv8) requires i & 0xF0 == 0xB0 ensures Row16_B(i) == Byte16(i as bv16) { Eight16(i as bv16); }
  lemma Row16Check_C(i: bv8) requires i & 0xF0 == 0xC0 ensures Row16_C(i) == Byte16(i as bv16) { Eight16(i as bv16); }
  lemma Row16Check_D(i: bv8) requires i & 0xF0 == 0xD0 ensures Row16_D(i) == Byte16(i as bv16) { Eight16(i as bv16); }
  lemma Row16Check_E(i: bv8) requires i & 0xF0 == 0xE0 ensures Row16_E(i) == Byte16(i as bv16) { Eight16(i as bv16); }
  lemma Row16Check_F(i: bv8) requires i & 0xF0 == 0xF0 ensures Row16_F(i) == Byte16(i as bv16) { Eight16(i as bv16); }

  /** Every entry of the 16-bit table is eight shift steps of its index. */
  lemma Table16IsEightSteps(i: bv8)
    ensures Table16(i) == Byte16(i as bv16)
  {
    match i & 0xF0
    case 0x00 => Row16Check_0(i); case 0x10 => Row16Check_1(i);
    case 0x20 => Row16Check_2(i); case 0x30 => Row16Check_3(i);
    case 0x40 => Row16Check_4(i); case 0x50 => Row16Check_5(i);
    case 0x60 => Row16Check_6(i); case 0x70 => Row16Check_7(i);
    case 0x80 => Row16Check_8(i); case 0x90 => Row16Check_9(i);
    case 0xA0 => Row16Check_A(i); case 0xB0 => Row16Check_B(i);
    case 0xC0 => Row16Check_C(i); case 0xD0 => Row16Check_D(i); case 0xE0 => Row16Check_E(i); case _ => Row16Check_F(i);
  }

  // Each row is a small bit-vector problem of its own.
  lemma Row32Check_0(i: bv8) requires i & 0xF0 == 0x00 ensures Row32_0(i) == Byte32(i as bv32) { Eight32(i as bv32); }
  lemma Row32Check_1(i: bv8) requires i & 0xF0 == 0x10 ensures Row32_1(i) == Byte32(i as bv32) { Eight32(i as bv32); }
  lemma Row32Check_2(i: bv8) requires i & 0xF0 == 0x20 ensures Row32_2(i) == Byte32(i as bv32) { Eight32(i as bv32); }
  lemma Row32Check_3(i: bv8) requires i & 0xF0 == 0x30 ensures Row32_3(i) == Byte32(i as bv32) { Eight32(i as bv32); }
  lemma Row32Check_4(i: bv8) requires i & 0xF0 == 0x40 ensures Row32_4(i) == Byte32(i as bv32) { Eight32(i as bv32); }
  lemma Row32Check_5(i: bv8) requires i & 0xF0 == 0x50 ensures Row32_5(i) == Byte32(i as bv32) { Eight32(i as bv32); }
  lemma Row32Check_6(i: bv8) requires i & 0xF0 == 0x60 ensures Row32_6(i) == Byte32(i as bv32) { Eight32(i as bv32); }
  lemma Row32Check_7(i: bv8) requires i & 0xF0 == 0x70 ensures Row32_7(i) == Byte32(i as bv32) { Eight32(i as bv32); }
  lemma Row32Check_8(i: bv8) requires i & 0xF0 == 0x80 ensures Row32_8(i) == Byte32(i as bv32) { Eight32(i as bv32); }
  lemma Row32Check_9(i: bv8) requires i & 0xF0 == 0x90 ensures Row32_9(i) == Byte32(i as bv32) { Eight32(i as bv32); }
  lemma Row32Check_A(i: bv8) requires i & 0xF0 == 0xA0 ensures Row32_A(i) == Byte32(i as bv32) { Eight32(i as bv32); }
  lemma Row32Check_B(i: bv8) requires i & 0xF0 == 0xB0 ensures Row32_B(i) == Byte32(i as bv32) { Eight32(i as bv32); }
  lemma Row32Check_C(i: bv8) requires i & 0xF0 == 0xC0 ensures Row32_C(i) == Byte32(i as bv32) { Eight32(i as bv32); }
  lemma Row32Check_D(i: bv8) requires i & 0xF0 == 0xD0 ensures Row32_D(i) == Byte32(i as bv32) { Eight32(i as bv32); }
  lemma Row32Check_E(i: bv8) requires i & 0xF0 == 0xE0 ensures Row32_E(i) == Byte32(i as bv32) { Eight32(i as bv32); }
  lemma Row32Check_F(i: bv8) requires i & 0xF0 == 0xF0 ensures Row32_F(i) == Byte32(i as bv32) { Eight32(i as bv32); }

  /** Every entry of the 32-bit table is eight shift steps of its index. */
  lemma Table32IsEightSteps(i: bv8)
    ensures Table32(i) == Byte32(i as bv32)
  {
    match i & 0xF0
    case 0x00 => Row32Check_0(i); case 0x10 => Row32Check_1(i);
    case 0x20 => Row32Check_2(i); case 0x30 => Row32Check_3(i);
    case 0x40 => Row32Check_4(i); case 0x50 => Row32Check_5(i);
    case 0x60 => Row32Check_6(i); case 0x70 => Row32Check_7(i);
    case 0x80 => Row32Check_8(i); case 0x90 => Row32Check_9(i);
    case 0xA0 => Row32Check_A(i); case 0xB0 => Row32Check_B(i);
    case 0xC0 => Row32Check_C(i); case 0xD0 => Row32Check_D(i); case 0xE0 => Row32Check_E(i); case _ => Row32Check_F(i);
  }
}
