/** The lookup tables of the small-table AES build, as data.  Each table is a
    binary search on the index. */
module AesTables {

  function Te0(x: bv8): bv32 {
    if x < 0x80 then
      if x < 0x40 then
        if x < 0x20 then
          if x < 0x10 then
            if x < 0x08 then
              if x < 0x04 then
                if x < 0x02 then (if x < 0x01 then 0xc66363a5 else 0xf87c7c84)
                else if x < 0x03 then 0xee777799 else 0xf67b7b8d
              else
                if x < 0x06 then (if x < 0x05 then 0xfff2f20d else 0xd66b6bbd)
                else if x < 0x07 then 0xde6f6fb1 else 0x91c5c554
            else
              if x < 0x0c then
                if x < 0x0a then (if x < 0x09 then 0x60303050 else 0x02010103)
                else if x < 0x0b then 0xce6767a9 else 0x562b2b7d
              else
                if x < 0x0e then (if x < 0x0d then 0xe7fefe19 else 0xb5d7d762)
                else if x < 0x0f then 0x4dababe6 else 0xec76769a
          else
            if x < 0x18 then
              if x < 0x14 then
                if x < 0x12 then (if x < 0x11 then 0x8fcaca45 else 0x1f82829d)
                else if x < 0x13 then 0x89c9c940 else 0xfa7d7d87
              else
                if x < 0x16 then (if x < 0x15 then 0xeffafa15 else 0xb25959eb)
                else if x < 0x17 then 0x8e4747c9 else 0xfbf0f00b
            else
              if x < 0x1c then
                if x < 0x1a then (if x < 0x19 then 0x41adadec else 0xb3d4d467)
                else if x < 0x1b then 0x5fa2a2fd else 0x45afafea
              else
                if x < 0x1e then (if x < 0x1d then 0x239c9cbf else 0x53a4a4f7)
                else if x < 0x1f then 0xe4727296 else 0x9bc0c05b
        else
          if x < 0x30 then
            if x < 0x28 then
              if x < 0x24 then
                if x < 0x22 then (if x < 0x21 then 0x75b7b7c2 else 0xe1fdfd1c)
                else if x < 0x23 then 0x3d9393ae else 0x4c26266a
              else
                if x < 0x26 then (if x < 0x25 then 0x6c36365a else 0x7e3f3f41)
                else if x < 0x27 then 0xf5f7f702 else 0x83cccc4f
            else
              if x < 0x2c then
                if x < 0x2a then (if x < 0x29 then 0x6834345c else 0x51a5a5f4)
                else if x < 0x2b then 0xd1e5e534 else 0xf9f1f108
              else
                if x < 0x2e then (if x < 0x2d then 0xe2717193 else 0xabd8d873)
                else if x < 0x2f then 0x62313153 else 0x2a15153f
          else
            if x < 0x38 then
              if x < 0x34 then
                if x < 0x32 then (if x < 0x31 then 0x0804040c else 0x95c7c752)
                else if x < 0x33 then 0x46232365 else 0x9dc3c35e
              else
                if x < 0x36 then (if x < 0x35 then 0x30181828 else 0x379696a1)
                else if x < 0x37 then 0x0a05050f else 0x2f9a9ab5
            else
              if x < 0x3c then
                if x < 0x3a then (if x < 0x39 then 0x0e070709 else 0x24121236)
                else if x < 0x3b then 0x1b80809b else 0xdfe2e23d
              else
                if x < 0x3e then (if x < 0x3d then 0xcdebeb26 else 0x4e272769)
                else if x < 0x3f then 0x7fb2b2cd else 0xea75759f
      else
        if x < 0x60 then
          if x < 0x50 then
            if x < 0x48 then
              if x < 0x44 then
                if x < 0x42 then (if x < 0x41 then 0x1209091b else 0x1d83839e)
                else if x < 0x43 then 0x582c2c74 else 0x341a1a2e
              else
                if x < 0x46 then (if x < 0x45 then 0x361b1b2d else 0xdc6e6eb2)
                else if x < 0x47 then 0xb45a5aee else 0x5ba0a0fb
            else
              if x < 0x4c then
                if x < 0x4a then (if x < 0x49 then 0xa45252f6 else 0x763b3b4d)
                else if x < 0x4b then 0xb7d6d661 else 0x7db3b3ce
              else
                if x < 0x4e then (if x < 0x4d then 0x5229297b else 0xdde3e33e)
                else if x < 0x4f then 0x5e2f2f71 else 0x13848497
          else
            if x < 0x58 then
              if x < 0x54 then
                if x < 0x52 then (if x < 0x51 then 0xa65353f5 else 0xb9d1d168)
                else if x < 0x53 then 0x00000000 else 0xc1eded2c
              else
                if x < 0x56 then (if x < 0x55 then 0x40202060 else 0xe3fcfc1f)
                else if x < 0x57 then 0x79b1b1c8 else 0xb65b5bed
            else
              if x < 0x5c then
                if x < 0x5a then (if x < 0x59 then 0xd46a6abe else 0x8dcbcb46)
                else if x < 0x5b then 0x67bebed9 else 0x7239394b
              else
                if x < 0x5e then (if x < 0x5d then 0x944a4ade else 0x984c4cd4)
                else if x < 0x5f then 0xb05858e8 else 0x85cfcf4a
        else
          if x < 0x70 then
            if x < 0x68 then
              if x < 0x64 then
                if x < 0x62 then (if x < 0x61 then 0xbbd0d06b else 0xc5efef2a)
                else if x < 0x63 then 0x4faaaae5 else 0xedfbfb16
              else
                if x < 0x66 then (if x < 0x65 then 0x864343c5 else 0x9a4d4dd7)
                else if x < 0x67 then 0x66333355 else 0x11858594
            else
              if x < 0x6c then
                if x < 0x6a then (if x < 0x69 then 0x8a4545cf else 0xe9f9f910)
                else if x < 0x6b then 0x04020206 else 0xfe7f7f81
              else
                if x < 0x6e then (if x < 0x6d then 0xa05050f0 else 0x783c3c44)
                else if x < 0x6f then 0x259f9fba else 0x4ba8a8e3
          else
            if x < 0x78 then
              if x < 0x74 then
                if x < 0x72 then (if x < 0x71 then 0xa25151f3 else 0x5da3a3fe)
                else if x < 0x73 then 0x804040c0 else 0x058f8f8a
              else
                if x < 0x76 then (if x < 0x75 then 0x3f9292ad else 0x219d9dbc)
                else if x < 0x77 then 0x70383848 else 0xf1f5f504
            else
              if x < 0x7c then
                if x < 0x7a then (if x < 0x79 then 0x63bcbcdf else 0x77b6b6c1)
                else if x < 0x7b then 0xafdada75 else 0x42212163
              else
                if x < 0x7e then (if x < 0x7d then 0x20101030 else 0xe5ffff1a)
                else if x < 0x7f then 0xfdf3f30e else 0xbfd2d26d
    else
      if x < 0xc0 then
        if x < 0xa0 then
          if x < 0x90 then
            if x < 0x88 then
              if x < 0x84 then
                if x < 0x82 then (if x < 0x81 then 0x81cdcd4c else 0x180c0c14)
                else if x < 0x83 then 0x26131335 else 0xc3ecec2f
              else
                if x < 0x86 then (if x < 0x85 then 0xbe5f5fe1 else 0x359797a2)
                else if x < 0x87 then 0x884444cc else 0x2e171739
            else
              if x < 0x8c then
                if x < 0x8a then (if x < 0x89 then 0x93c4c457 else 0x55a7a7f2)
                else if x < 0x8b then 0xfc7e7e82 else 0x7a3d3d47
              else
                if x < 0x8e then (if x < 0x8d then 0xc86464ac else 0xba5d5de7)
                else if x < 0x8f then 0x3219192b else 0xe6737395
          else
            if x < 0x98 then
              if x < 0x94 then
                if x < 0x92 then (if x < 0x91 then 0xc06060a0 else 0x19818198)
                else if x < 0x93 then 0x9e4f4fd1 else 0xa3dcdc7f
              else
                if x < 0x96 then (if x < 0x95 then 0x44222266 else 0x542a2a7e)
                else if x < 0x97 then 0x3b9090ab else 0x0b888883
            else
              if x < 0x9c then
                if x < 0x9a then (if x < 0x99 then 0x8c4646ca else 0xc7eeee29)
                else if x < 0x9b then 0x6bb8b8d3 else 0x2814143c
              else
                if x < 0x9e then (if x < 0x9d then 0xa7dede79 else 0xbc5e5ee2)
                else if x < 0x9f then 0x160b0b1d else 0xaddbdb76
        else
          if x < 0xb0 then
            if x < 0xa8 then
              if x < 0xa4 then
                if x < 0xa2 then (if x < 0xa1 then 0xdbe0e03b else 0x64323256)
                else if x < 0xa3 then 0x743a3a4e else 0x140a0a1e
              else
                if x < 0xa6 then (if x < 0xa5 then 0x924949db else 0x0c06060a)
                else if x < 0xa7 then 0x4824246c else 0xb85c5ce4
            else
              if x < 0xac then
                if x < 0xaa then (if x < 0xa9 then 0x9fc2c25d else 0xbdd3d36e)
                else if x < 0xab then 0x43acacef else 0xc46262a6
              else
                if x < 0xae then (if x < 0xad then 0x399191a8 else 0x319595a4)
                else if x < 0xaf then 0xd3e4e437 else 0xf279798b
          else
            if x < 0xb8 then
              if x < 0xb4 then
                if x < 0xb2 then (if x < 0xb1 then 0xd5e7e732 else 0x8bc8c843)
                else if x < 0xb3 then 0x6e373759 else 0xda6d6db7
              else
                if x < 0xb6 then (if x < 0xb5 then 0x018d8d8c else 0xb1d5d564)
                else if x < 0xb7 then 0x9c4e4ed2 else 0x49a9a9e0
            else
              if x < 0xbc then
                if x < 0xba then (if x < 0xb9 then 0xd86c6cb4 else 0xac5656fa)
                else if x < 0xbb then 0xf3f4f407 else 0xcfeaea25
              else
                if x < 0xbe then (if x < 0xbd then 0xca6565af else 0xf47a7a8e)
                else if x < 0xbf then 0x47aeaee9 else 0x10080818
      else
        if x < 0xe0 then
          if x < 0xd0 then
            if x < 0xc8 then
              if x < 0xc4 then
                if x < 0xc2 then (if x < 0xc1 then 0x6fbabad5 else 0xf0787888)
                else if x < 0xc3 then 0x4a25256f else 0x5c2e2e72
              else
                if x < 0xc6 then (if x < 0xc5 then 0x381c1c24 else 0x57a6a6f1)
                else if x < 0xc7 then 0x73b4b4c7 else 0x97c6c651
            else
              if x < 0xcc then
                if x < 0xca then (if x < 0xc9 then 0xcbe8e823 else 0xa1dddd7c)
                else if x < 0xcb then 0xe874749c else 0x3e1f1f21
              else
                if x < 0xce then (if x < 0xcd then 0x964b4bdd else 0x61bdbddc)
                else if x < 0xcf then 0x0d8b8b86 else 0x0f8a8a85
          else
            if x < 0xd8 then
              if x < 0xd4 then
                if x < 0xd2 then (if x < 0xd1 then 0xe0707090 else 0x7c3e3e42)
                else if x < 0xd3 then 0x71b5b5c4 else 0xcc6666aa
              else
                if x < 0xd6 then (if x < 0xd5 then 0x904848d8 else 0x06030305)
                else if x < 0xd7 then 0xf7f6f601 else 0x1c0e0e12
            else
              if x < 0xdc then
                if x < 0xda then (if x < 0xd9 then 0xc26161a3 else 0x6a35355f)
                else if x < 0xdb then 0xae5757f9 else 0x69b9b9d0
              else
                if x < 0xde then (if x < 0xdd then 0x17868691 else 0x99c1c158)
                else if x < 0xdf then 0x3a1d1d27 else 0x279e9eb9
        else
          if x < 0xf0 then
            if x < 0xe8 then
              if x < 0xe4 then
                if x < 0xe2 then (if x < 0xe1 then 0xd9e1e138 else 0xebf8f813)
                else if x < 0xe3 then 0x2b9898b3 else 0x22111133
              else
                if x < 0xe6 then (if x < 0xe5 then 0xd26969bb else 0xa9d9d970)
                else if x < 0xe7 then 0x078e8e89 else 0x339494a7
            else
              if x < 0xec then
                if x < 0xea then (if x < 0xe9 then 0x2d9b9bb6 else 0x3c1e1e22)
                else if x < 0xeb then 0x15878792 else 0xc9e9e920
              else
                if x < 0xee then (if x < 0xed then 0x87cece49 else 0xaa5555ff)
                else if x < 0xef then 0x50282878 else 0xa5dfdf7a
          else
            if x < 0xf8 then
              if x < 0xf4 then
                if x < 0xf2 then (if x < 0xf1 then 0x038c8c8f else 0x59a1a1f8)
                else if x < 0xf3 then 0x09898980 else 0x1a0d0d17
              else
                if x < 0xf6 then (if x < 0xf5 then 0x65bfbfda else 0xd7e6e631)
                else if x < 0xf7 then 0x844242c6 else 0xd06868b8
            else
              if x < 0xfc then
                if x < 0xfa then (if x < 0xf9 then 0x824141c3 else 0x299999b0)
                else if x < 0xfb then 0x5a2d2d77 else 0x1e0f0f11
              else
                if x < 0xfe then (if x < 0xfd then 0x7bb0b0cb else 0xa85454fc)
                else if x < 0xff then 0x6dbbbbd6 else 0x2c16163a
  }

  function Td0(x: bv8): bv32 {
    if x < 0x80 then
      if x < 0x40 then
        if x < 0x20 then
          if x < 0x10 then
            if x < 0x08 then
              if x < 0x04 then
                if x < 0x02 then (if x < 0x01 then 0x51f4a750 else 0x7e416553)
                else if x < 0x03 then 0x1a17a4c3 else 0x3a275e96
              else
                if x < 0x06 then (if x < 0x05 then 0x3bab6bcb else 0x1f9d45f1)
                else if x < 0x07 then 0xacfa58ab else 0x4be30393
            else
              if x < 0x0c then
                if x < 0x0a then (if x < 0x09 then 0x2030fa55 else 0xad766df6)
                else if x < 0x0b then 0x88cc7691 else 0xf5024c25
              else
                if x < 0x0e then (if x < 0x0d then 0x4fe5d7fc else 0xc52acbd7)
                else if x < 0x0f then 0x26354480 else 0xb562a38f
          else
            if x < 0x18 then
              if x < 0x14 then
                if x < 0x12 then (if x < 0x11 then 0xdeb15a49 else 0x25ba1b67)
                else if x < 0x13 then 0x45ea0e98 else 0x5dfec0e1
              else
                if x < 0x16 then (if x < 0x15 then 0xc32f7502 else 0x814cf012)
                else if x < 0x17 then 0x8d4697a3 else 0x6bd3f9c6
            else
              if x < 0x1c then
                if x < 0x1a then (if x < 0x19 then 0x038f5fe7 else 0x15929c95)
                else if x < 0x1b then 0xbf6d7aeb else 0x955259da
              else
                if x < 0x1e then (if x < 0x1d then 0xd4be832d else 0x587421d3)
                else if x < 0x1f then 0x49e06929 else 0x8ec9c844
        else
          if x < 0x30 then
            if x < 0x28 then
              if x < 0x24 then
                if x < 0x22 then (if x < 0x21 then 0x75c2896a else 0xf48e7978)
                else if x < 0x23 then 0x99583e6b else 0x27b971dd
              else
                if x < 0x26 then (if x < 0x25 then 0xbee14fb6 else 0xf088ad17)
                else if x < 0x27 then 0xc920ac66 else 0x7dce3ab4
            else
              if x < 0x2c then
                if x < 0x2a then (if x < 0x29 then 0x63df4a18 else 0xe51a3182)
                else if x < 0x2b then 0x97513360 else 0x62537f45
              else
                if x < 0x2e then (if x < 0x2d then 0xb16477e0 else 0xbb6bae84)
                else if x < 0x2f then 0xfe81a01c else 0xf9082b94
          else
            if x < 0x38 then
              if x < 0x34 then
                if x < 0x32 then (if x < 0x31 then 0x70486858 else 0x8f45fd19)
                else if x < 0x33 then 0x94de6c87 else 0x527bf8b7
              else
                if x < 0x36 then (if x < 0x35 then 0xab73d323 else 0x724b02e2)
                else if x < 0x37 then 0xe31f8f57 else 0x6655ab2a
            else
              if x < 0x3c then
                if x < 0x3a then (if x < 0x39 then 0xb2eb2807 else 0x2fb5c203)
                else if x < 0x3b then 0x86c57b9a else 0xd33708a5
              else
                if x < 0x3e then (if x < 0x3d then 0x302887f2 else 0x23bfa5b2)
                else if x < 0x3f then 0x02036aba else 0xed16825c
      else
        if x < 0x60 then
          if x < 0x50 then
            if x < 0x48 then
              if x < 0x44 then
                if x < 0x42 then (if x < 0x41 then 0x8acf1c2b else 0xa779b492)
                else if x < 0x43 then 0xf307f2f0 else 0x4e69e2a1
              else
                if x < 0x46 then (if x < 0x45 then 0x65daf4cd else 0x0605bed5)
                else if x < 0x47 then 0xd134621f else 0xc4a6fe8a
            else
              if x < 0x4c then
                if x < 0x4a then (if x < 0x49 then 0x342e539d else 0xa2f355a0)
                else if x < 0x4b then 0x058ae132 else 0xa4f6eb75
              else
                if x < 0x4e then (if x < 0x4d then 0x0b83ec39 else 0x4060efaa)
                else if x < 0x4f then 0x5e719f06 else 0xbd6e1051
          else
            if x < 0x58 then
              if x < 0x54 then
                if x < 0x52 then (if x < 0x51 then 0x3e218af9 else 0x96dd063d)
                else if x < 0x53 then 0xdd3e05ae else 0x4de6bd46
              else
                if x < 0x56 then (if x < 0x55 then 0x91548db5 else 0x71c45d05)
                else if x < 0x57 then 0x0406d46f else 0x605015ff
            else
              if x < 0x5c then
                if x < 0x5a then (if x < 0x59 then 0x1998fb24 else 0xd6bde997)
                else if x < 0x5b then 0x894043cc else 0x67d99e77
              else
                if x < 0x5e then (if x < 0x5d then 0xb0e842bd else 0x07898b88)
                else if x < 0x5f then 0xe7195b38 else 0x79c8eedb
        else
          if x < 0x70 then
            if x < 0x68 then
              if x < 0x64 then
                if x < 0x62 then (if x < 0x61 then 0xa17c0a47 else 0x7c420fe9)
                else if x < 0x63 then 0xf8841ec9 else 0x00000000
              else
                if x < 0x66 then (if x < 0x65 then 0x09808683 else 0x322bed48)
                else if x < 0x67 then 0x1e1170ac else 0x6c5a724e
            else
              if x < 0x6c then
                if x < 0x6a then (if x < 0x69 then 0xfd0efffb else 0x0f853856)
                else if x < 0x6b then 0x3daed51e else 0x362d3927
              else
                if x < 0x6e then (if x < 0x6d then 0x0a0fd964 else 0x685ca621)
                else if x < 0x6f then 0x9b5b54d1 else 0x24362e3a
          else
            if x < 0x78 then
              if x < 0x74 then
                if x < 0x72 then (if x < 0x71 then 0x0c0a67b1 else 0x9357e70f)
                else if x < 0x73 then 0xb4ee96d2 else 0x1b9b919e
              else
                if x < 0x76 then (if x < 0x75 then 0x80c0c54f else 0x61dc20a2)
                else if x < 0x77 then 0x5a774b69 else 0x1c121a16
            else
              if x < 0x7c then
                if x < 0x7a then (if x < 0x79 then 0xe293ba0a else 0xc0a02ae5)
                else if x < 0x7b then 0x3c22e043 else 0x121b171d
              else
                if x < 0x7e then (if x < 0x7d then 0x0e090d0b else 0xf28bc7ad)
                else if x < 0x7f then 0x2db6a8b9 else 0x141ea9c8
    else
      if x < 0xc0 then
        if x < 0xa0 then
          if x < 0x90 then
            if x < 0x88 then
              if x < 0x84 then
                if x < 0x82 then (if x < 0x81 then 0x57f11985 else 0xaf75074c)
                else if x < 0x83 then 0xee99ddbb else 0xa37f60fd
              else
                if x < 0x86 then (if x < 0x85 then 0xf701269f else 0x5c72f5bc)
                else if x < 0x87 then 0x44663bc5 else 0x5bfb7e34
            else
              if x < 0x8c then
                if x < 0x8a then (if x < 0x89 then 0x8b432976 else 0xcb23c6dc)
                else if x < 0x8b then 0xb6edfc68 else 0xb8e4f163
              else
                if x < 0x8e then (if x < 0x8d then 0xd731dcca else 0x42638510)
                else if x < 0x8f then 0x13972240 else 0x84c61120
          else
            if x < 0x98 then
              if x < 0x94 then
                if x < 0x92 then (if x < 0x91 then 0x854a247d else 0xd2bb3df8)
                else if x < 0x93 then 0xaef93211 else 0xc729a16d
              else
                if x < 0x96 then (if x < 0x95 then 0x1d9e2f4b else 0xdcb230f3)
                else if x < 0x97 then 0x0d8652ec else 0x77c1e3d0
            else
              if x < 0x9c then
                if x < 0x9a then (if x < 0x99 then 0x2bb3166c else 0xa970b999)
                else if x < 0x9b then 0x119448fa else 0x47e96422
              else
                if x < 0x9e then (if x < 0x9d then 0xa8fc8cc4 else 0xa0f03f1a)
                else if x < 0x9f then 0x567d2cd8 else 0x223390ef
        else
          if x < 0xb0 then
            if x < 0xa8 then
              if x < 0xa4 then
                if x < 0xa2 then (if x < 0xa1 then 0x87494ec7 else 0xd938d1c1)
                else if x < 0xa3 then 0x8ccaa2fe else 0x98d40b36
              else
                if x < 0xa6 then (if x < 0xa5 then 0xa6f581cf else 0xa57ade28)
                else if x < 0xa7 then 0xdab78e26 else 0x3fadbfa4
            else
              if x < 0xac then
                if x < 0xaa then (if x < 0xa9 then 0x2c3a9de4 else 0x5078920d)
                else if x < 0xab then 0x6a5fcc9b else 0x547e4662
              else
                if x < 0xae then (if x < 0xad then 0xf68d13c2 else 0x90d8b8e8)
                else if x < 0xaf then 0x2e39f75e else 0x82c3aff5
          else
            if x < 0xb8 then
              if x < 0xb4 then
                if x < 0xb2 then (if x < 0xb1 then 0x9f5d80be else 0x69d0937c)
                else if x < 0xb3 then 0x6fd52da9 else 0xcf2512b3
              else
                if x < 0xb6 then (if x < 0xb5 then 0xc8ac993b else 0x10187da7)
                else if x < 0xb7 then 0xe89c636e else 0xdb3bbb7b
            else
              if x < 0xbc then
                if x < 0xba then (if x < 0xb9 then 0xcd267809 else 0x6e5918f4)
                else if x < 0xbb then 0xec9ab701 else 0x834f9aa8
              else
                if x < 0xbe then (if x < 0xbd then 0xe6956e65 else 0xaaffe67e)
                else if x < 0xbf then 0x21bccf08 else 0xef15e8e6
      else
        if x < 0xe0 then
          if x < 0xd0 then
            if x < 0xc8 then
              if x < 0xc4 then
                if x < 0xc2 then (if x < 0xc1 then 0xbae79bd9 else 0x4a6f36ce)
                else if x < 0xc3 then 0xea9f09d4 else 0x29b07cd6
              else
                if x < 0xc6 then (if x < 0xc5 then 0x31a4b2af else 0x2a3f2331)
                else if x < 0xc7 then 0xc6a59430 else 0x35a266c0
            else
              if x < 0xcc then
                if x < 0xca then (if x < 0xc9 then 0x744ebc37 else 0xfc82caa6)
                else if x < 0xcb then 0xe090d0b0 else 0x33a7d815
              else
                if x < 0xce then (if x < 0xcd then 0xf104984a else 0x41ecdaf7)
                else if x < 0xcf then 0x7fcd500e else 0x1791f62f
          else
            if x < 0xd8 then
              if x < 0xd4 then
                if x < 0xd2 then (if x < 0xd1 then 0x764dd68d else 0x43efb04d)
                else if x < 0xd3 then 0xccaa4d54 else 0xe49604df
              else
                if x < 0xd6 then (if x < 0xd5 then 0x9ed1b5e3 else 0x4c6a881b)
                else if x < 0xd7 then 0xc12c1fb8 else 0x4665517f
            else
              if x < 0xdc then
                if x < 0xda then (if x < 0xd9 then 0x9d5eea04 else 0x018c355d)
                else if x < 0xdb then 0xfa877473 else 0xfb0b412e
              else
                if x < 0xde then (if x < 0xdd then 0xb3671d5a else 0x92dbd252)
                else if x < 0xdf then 0xe9105633 else 0x6dd64713
        else
          if x < 0xf0 then
            if x < 0xe8 then
              if x < 0xe4 then
                if x < 0xe2 then (if x < 0xe1 then 0x9ad7618c else 0x37a10c7a)
                else if x < 0xe3 then 0x59f8148e else 0xeb133c89
              else
                if x < 0xe6 then (if x < 0xe5 then 0xcea927ee else 0xb761c935)
                else if x < 0xe7 then 0xe11ce5ed else 0x7a47b13c
            else
              if x < 0xec then
                if x < 0xea then (if x < 0xe9 then 0x9cd2df59 else 0x55f2733f)
                else if x < 0xeb then 0x1814ce79 else 0x73c737bf
              else
                if x < 0xee then (if x < 0xed then 0x53f7cdea else 0x5ffdaa5b)
                else if x < 0xef then 0xdf3d6f14 else 0x7844db86
          else
            if x < 0xf8 then
              if x < 0xf4 then
                if x < 0xf2 then (if x < 0xf1 then 0xcaaff381 else 0xb968c43e)
                else if x < 0xf3 then 0x3824342c else 0xc2a3405f
              else
                if x < 0xf6 then (if x < 0xf5 then 0x161dc372 else 0xbce2250c)
                else if x < 0xf7 then 0x283c498b else 0xff0d9541
            else
              if x < 0xfc then
                if x < 0xfa then (if x < 0xf9 then 0x39a80171 else 0x080cb3de)
                else if x < 0xfb then 0xd8b4e49c else 0x6456c190
              else
                if x < 0xfe then (if x < 0xfd then 0x7bcb8461 else 0xd532b670)
                else if x < 0xff then 0x486c5c74 else 0xd0b85742
  }

  function Td4s(x: bv8): bv8 {
    if x < 0x80 then
      if x < 0x40 then
        if x < 0x20 then
          if x < 0x10 then
            if x < 0x08 then
              if x < 0x04 then
                if x < 0x02 then (if x < 0x01 then 0x52 else 0x09) else if x < 0x03 then 0x6a else 0xd5
              else
                if x < 0x06 then (if x < 0x05 then 0x30 else 0x36) else if x < 0x07 then 0xa5 else 0x38
            else
              if x < 0x0c then
                if x < 0x0a then (if x < 0x09 then 0xbf else 0x40) else if x < 0x0b then 0xa3 else 0x9e
              else
                if x < 0x0e then (if x < 0x0d then 0x81 else 0xf3) else if x < 0x0f then 0xd7 else 0xfb
          else
            if x < 0x18 then
              if x < 0x14 then
                if x < 0x12 then (if x < 0x11 then 0x7c else 0xe3) else if x < 0x13 then 0x39 else 0x82
              else
                if x < 0x16 then (if x < 0x15 then 0x9b else 0x2f) else if x < 0x17 then 0xff else 0x87
            else
              if x < 0x1c then
                if x < 0x1a then (if x < 0x19 then 0x34 else 0x8e) else if x < 0x1b then 0x43 else 0x44
              else
                if x < 0x1e then (if x < 0x1d then 0xc4 else 0xde) else if x < 0x1f then 0xe9 else 0xcb
        else
          if x < 0x30 then
            if x < 0x28 then
              if x < 0x24 then
                if x < 0x22 then (if x < 0x21 then 0x54 else 0x7b) else if x < 0x23 then 0x94 else 0x32
              else
                if x < 0x26 then (if x < 0x25 then 0xa6 else 0xc2) else if x < 0x27 then 0x23 else 0x3d
            else
              if x < 0x2c then
                if x < 0x2a then (if x < 0x29 then 0xee else 0x4c) else if x < 0x2b then 0x95 else 0x0b
              else
                if x < 0x2e then (if x < 0x2d then 0x42 else 0xfa) else if x < 0x2f then 0xc3 else 0x4e
          else
            if x < 0x38 then
              if x < 0x34 then
                if x < 0x32 then (if x < 0x31 then 0x08 else 0x2e) else if x < 0x33 then 0xa1 else 0x66
              else
                if x < 0x36 then (if x < 0x35 then 0x28 else 0xd9) else if x < 0x37 then 0x24 else 0xb2
            else
              if x < 0x3c then
                if x < 0x3a then (if x < 0x39 then 0x76 else 0x5b) else if x < 0x3b then 0xa2 else 0x49
              else
                if x < 0x3e then (if x < 0x3d then 0x6d else 0x8b) else if x < 0x3f then 0xd1 else 0x25
      else
        if x < 0x60 then
          if x < 0x50 then
            if x < 0x48 then
              if x < 0x44 then
                if x < 0x42 then (if x < 0x41 then 0x72 else 0xf8) else if x < 0x43 then 0xf6 else 0x64
              else
                if x < 0x46 then (if x < 0x45 then 0x86 else 0x68) else if x < 0x47 then 0x98 else 0x16
            else
              if x < 0x4c then
                if x < 0x4a then (if x < 0x49 then 0xd4 else 0xa4) else if x < 0x4b then 0x5c else 0xcc
              else
                if x < 0x4e then (if x < 0x4d then 0x5d else 0x65) else if x < 0x4f then 0xb6 else 0x92
          else
            if x < 0x58 then
              if x < 0x54 then
                if x < 0x52 then (if x < 0x51 then 0x6c else 0x70) else if x < 0x53 then 0x48 else 0x50
              else
                if x < 0x56 then (if x < 0x55 then 0xfd else 0xed) else if x < 0x57 then 0xb9 else 0xda
            else
              if x < 0x5c then
                if x < 0x5a then (if x < 0x59 then 0x5e else 0x15) else if x < 0x5b then 0x46 else 0x57
              else
                if x < 0x5e then (if x < 0x5d then 0xa7 else 0x8d) else if x < 0x5f then 0x9d else 0x84
        else
          if x < 0x70 then
            if x < 0x68 then
              if x < 0x64 then
                if x < 0x62 then (if x < 0x61 then 0x90 else 0xd8) else if x < 0x63 then 0xab else 0x00
              else
                if x < 0x66 then (if x < 0x65 then 0x8c else 0xbc) else if x < 0x67 then 0xd3 else 0x0a
            else
              if x < 0x6c then
                if x < 0x6a then (if x < 0x69 then 0xf7 else 0xe4) else if x < 0x6b then 0x58 else 0x05
              else
                if x < 0x6e then (if x < 0x6d then 0xb8 else 0xb3) else if x < 0x6f then 0x45 else 0x06
          else
            if x < 0x78 then
              if x < 0x74 then
                if x < 0x72 then (if x < 0x71 then 0xd0 else 0x2c) else if x < 0x73 then 0x1e else 0x8f
              else
                if x < 0x76 then (if x < 0x75 then 0xca else 0x3f) else if x < 0x77 then 0x0f else 0x02
            else
              if x < 0x7c then
                if x < 0x7a then (if x < 0x79 then 0xc1 else 0xaf) else if x < 0x7b then 0xbd else 0x03
              else
                if x < 0x7e then (if x < 0x7d then 0x01 else 0x13) else if x < 0x7f then 0x8a else 0x6b
    else
      if x < 0xc0 then
        if x < 0xa0 then
          if x < 0x90 then
            if x < 0x88 then
              if x < 0x84 then
                if x < 0x82 then (if x < 0x81 then 0x3a else 0x91) else if x < 0x83 then 0x11 else 0x41
              else
                if x < 0x86 then (if x < 0x85 then 0x4f else 0x67) else if x < 0x87 then 0xdc else 0xea
            else
              if x < 0x8c then
                if x < 0x8a then (if x < 0x89 then 0x97 else 0xf2) else if x < 0x8b then 0xcf else 0xce
              else
                if x < 0x8e then (if x < 0x8d then 0xf0 else 0xb4) else if x < 0x8f then 0xe6 else 0x73
          else
            if x < 0x98 then
              if x < 0x94 then
                if x < 0x92 then (if x < 0x91 then 0x96 else 0xac) else if x < 0x93 then 0x74 else 0x22
              else
                if x < 0x96 then (if x < 0x95 then 0xe7 else 0xad) else if x < 0x97 then 0x35 else 0x85
            else
              if x < 0x9c then
                if x < 0x9a then (if x < 0x99 then 0xe2 else 0xf9) else if x < 0x9b then 0x37 else 0xe8
              else
                if x < 0x9e then (if x < 0x9d then 0x1c else 0x75) else if x < 0x9f then 0xdf else 0x6e
        else
          if x < 0xb0 then
            if x < 0xa8 then
              if x < 0xa4 then
                if x < 0xa2 then (if x < 0xa1 then 0x47 else 0xf1) else if x < 0xa3 then 0x1a else 0x71
              else
                if x < 0xa6 then (if x < 0xa5 then 0x1d else 0x29) else if x < 0xa7 then 0xc5 else 0x89
            else
              if x < 0xac then
                if x < 0xaa then (if x < 0xa9 then 0x6f else 0xb7) else if x < 0xab then 0x62 else 0x0e
              else
                if x < 0xae then (if x < 0xad then 0xaa else 0x18) else if x < 0xaf then 0xbe else 0x1b
          else
            if x < 0xb8 then
              if x < 0xb4 then
                if x < 0xb2 then (if x < 0xb1 then 0xfc else 0x56) else if x < 0xb3 then 0x3e else 0x4b
              else
                if x < 0xb6 then (if x < 0xb5 then 0xc6 else 0xd2) else if x < 0xb7 then 0x79 else 0x20
            else
              if x < 0xbc then
                if x < 0xba then (if x < 0xb9 then 0x9a else 0xdb) else if x < 0xbb then 0xc0 else 0xfe
              else
                if x < 0xbe then (if x < 0xbd then 0x78 else 0xcd) else if x < 0xbf then 0x5a else 0xf4
      else
        if x < 0xe0 then
          if x < 0xd0 then
            if x < 0xc8 then
              if x < 0xc4 then
                if x < 0xc2 then (if x < 0xc1 then 0x1f else 0xdd) else if x < 0xc3 then 0xa8 else 0x33
              else
                if x < 0xc6 then (if x < 0xc5 then 0x88 else 0x07) else if x < 0xc7 then 0xc7 else 0x31
            else
              if x < 0xcc then
                if x < 0xca then (if x < 0xc9 then 0xb1 else 0x12) else if x < 0xcb then 0x10 else 0x59
              else
                if x < 0xce then (if x < 0xcd then 0x27 else 0x80) else if x < 0xcf then 0xec else 0x5f
          else
            if x < 0xd8 then
              if x < 0xd4 then
                if x < 0xd2 then (if x < 0xd1 then 0x60 else 0x51) else if x < 0xd3 then 0x7f else 0xa9
              else
                if x < 0xd6 then (if x < 0xd5 then 0x19 else 0xb5) else if x < 0xd7 then 0x4a else 0x0d
            else
              if x < 0xdc then
                if x < 0xda then (if x < 0xd9 then 0x2d else 0xe5) else if x < 0xdb then 0x7a else 0x9f
              else
                if x < 0xde then (if x < 0xdd then 0x93 else 0xc9) else if x < 0xdf then 0x9c else 0xef
        else
          if x < 0xf0 then
            if x < 0xe8 then
              if x < 0xe4 then
                if x < 0xe2 then (if x < 0xe1 then 0xa0 else 0xe0) else if x < 0xe3 then 0x3b else 0x4d
              else
                if x < 0xe6 then (if x < 0xe5 then 0xae else 0x2a) else if x < 0xe7 then 0xf5 else 0xb0
            else
              if x < 0xec then
                if x < 0xea then (if x < 0xe9 then 0xc8 else 0xeb) else if x < 0xeb then 0xbb else 0x3c
              else
                if x < 0xee then (if x < 0xed then 0x83 else 0x53) else if x < 0xef then 0x99 else 0x61
          else
            if x < 0xf8 then
              if x < 0xf4 then
                if x < 0xf2 then (if x < 0xf1 then 0x17 else 0x2b) else if x < 0xf3 then 0x04 else 0x7e
              else
                if x < 0xf6 then (if x < 0xf5 then 0xba else 0x77) else if x < 0xf7 then 0xd6 else 0x26
            else
              if x < 0xfc then
                if x < 0xfa then (if x < 0xf9 then 0xe1 else 0x69) else if x < 0xfb then 0x14 else 0x63
              else
                if x < 0xfe then (if x < 0xfd then 0x55 else 0x21) else if x < 0xff then 0x0c else 0x7d
  }

  /** Round constants. */
  function Rcons(i: nat): bv8
    requires i < 10
  {
    [0x01, 0x02, 0x04, 0x08, 0x10, 0x20, 0x40, 0x80, 0x1B, 0x36][i]
  }
}
