/** The Polish collation and its reverse: one table and its inverse, swapped in the reverse collation. */
module Polish {
  import opened Collation

  /** The table of the transformation. */
  function XformTable(b: Byte): Byte {
    if b <= 165 then XformTableLow(b) else XformTableHigh(b)
  }

  function XformTableLow(b: Byte): Byte
    requires b <= 165
  {
    if b <= 98 then
      if b <= 78 then
        if b <= 70 then
          if b <= 66 then
            if b <= 64 then b else if b <= 65 then 70 else 78
          else
            if b <= 68 then (if b <= 67 then 82 else 90) else if b <= 69 then 97 else 104
        else
          if b <= 74 then
            if b <= 72 then (if b <= 71 then 106 else 108) else if b <= 73 then 112 else 116
          else
            if b <= 76 then (if b <= 75 then 118 else 122) else if b <= 77 then 128 else 131
      else
        if b <= 85 then
          if b <= 81 then
            if b <= 79 then 139 else if b <= 80 then 146 else 148
          else
            if b <= 83 then (if b <= 82 then 152 else 158) else if b <= 84 then 166 else 174
        else
          if b <= 89 then
            if b <= 87 then (if b <= 86 then 180 else 182) else if b <= 88 then 184 else 187
          else
            if b <= 96 then (if b <= 90 then 191 else b + 106) else if b <= 97 then 65 else 77
    else
      if b <= 113 then
        if b <= 105 then
          if b <= 101 then
            if b <= 99 then 79 else if b <= 100 then 87 else 93
          else
            if b <= 103 then (if b <= 102 then 103 else 105) else if b <= 104 then 107 else 109
        else
          if b <= 109 then
            if b <= 107 then (if b <= 106 then 115 else 117) else if b <= 108 then 119 else 127
          else
            if b <= 111 then (if b <= 110 then 129 else 135) else if b <= 112 then 145 else 147
      else
        if b <= 121 then
          if b <= 117 then
            if b <= 115 then (if b <= 114 then 149 else 155) else if b <= 116 then 163 else 169
          else
            if b <= 119 then (if b <= 118 then 179 else 181) else if b <= 120 then 183 else 185
        else
          if b <= 161 then
            if b <= 126 then (if b <= 122 then 189 else b + 80) else if b <= 160 then b + 93 else 76
          else
            if b <= 163 then (if b <= 162 then 207 else 126) else if b <= 164 then 208 else 123
  }

  function XformTableHigh(b: Byte): Byte
    requires 165 < b
  {
    if b <= 206 then
      if b <= 182 then
        if b <= 174 then
          if b <= 170 then
            if b <= 166 then 162 else if b <= 168 then b + 42 else b - 10
          else
            if b <= 172 then (if b <= 171 then 167 else 194) else if b <= 173 then 211 else 192
        else
          if b <= 178 then
            if b <= 176 then (if b <= 175 then 196 else 212) else if b <= 177 then 75 else 213
          else
            if b <= 180 then (if b <= 179 then 125 else 214) else if b <= 181 then 120 else 161
      else
        if b <= 192 then
          if b <= 188 then
            if b <= 186 then (if b <= 184 then b + 32 else b - 29) else if b <= 187 then 164 else 193
          else
            if b <= 190 then (if b <= 189 then 217 else 190) else if b <= 191 then 195 else 153
        else
          if b <= 200 then
            if b <= 197 then (if b <= 196 then b - 122 else 124) else if b <= 198 then 86 else b - 116
          else
            if b <= 202 then (if b <= 201 then 98 else 102) else if b <= 204 then b - 104 else b - 92
    else
      if b <= 230 then
        if b <= 216 then
          if b <= 210 then
            if b <= 208 then b - 116 else if b <= 209 then 134 else 132
          else
            if b <= 214 then (if b <= 211 then 144 else b - 72) else if b <= 215 then 218 else 154
        else
          if b <= 223 then
            if b <= 221 then (if b <= 220 then b - 42 else 188) else if b <= 222 then 168 else 254
          else
            if b <= 228 then (if b <= 224 then 150 else b - 159) else if b <= 229 then 121 else 85
      else
        if b <= 242 then
          if b <= 236 then
            if b <= 233 then (if b <= 232 then b - 151 else 94) else if b <= 234 then 101 else b - 140
          else
            if b <= 240 then (if b <= 238 then b - 127 else b - 151) else if b <= 241 then 133 else 130
        else
          if b <= 248 then
            if b <= 246 then (if b <= 243 then 143 else b - 108) else if b <= 247 then 219 else 151
          else
            if b <= 253 then (if b <= 252 then b - 79 else 186) else if b <= 254 then 165 else 255
  }

  /** The table of the way back. */
  function InverseTable(b: Byte): Byte {
    if b <= 142 then InverseTableLow(b) else InverseTableHigh(b)
  }

  function InverseTableLow(b: Byte): Byte
    requires b <= 142
  {
    if b <= 105 then
      if b <= 86 then
        if b <= 76 then
          if b <= 69 then
            if b <= 64 then b else if b <= 65 then 97 else b + 159
          else
            if b <= 74 then (if b <= 70 then 65 else b + 122) else if b <= 75 then 177 else 161
        else
          if b <= 81 then
            if b <= 78 then (if b <= 77 then 98 else 66) else if b <= 79 then 99 else b + 151
          else
            if b <= 84 then (if b <= 82 then 67 else b + 116) else if b <= 85 then 230 else 198
      else
        if b <= 96 then
          if b <= 90 then
            if b <= 87 then 100 else if b <= 89 then b + 151 else 68
          else
            if b <= 93 then (if b <= 92 then b + 116 else 101) else if b <= 94 then 233 else b + 140
        else
          if b <= 101 then
            if b <= 98 then (if b <= 97 then 69 else 201) else if b <= 100 then b + 104 else 234
          else
            if b <= 103 then (if b <= 102 then 202 else 102) else if b <= 104 then 70 else 103
    else
      if b <= 122 then
        if b <= 114 then
          if b <= 108 then
            if b <= 106 then 71 else if b <= 107 then 104 else 72
          else
            if b <= 111 then (if b <= 109 then 105 else b + 127) else if b <= 112 then 73 else b + 92
        else
          if b <= 118 then
            if b <= 116 then (if b <= 115 then 106 else 74) else if b <= 117 then 107 else 75
          else
            if b <= 120 then (if b <= 119 then 108 else 181) else if b <= 121 then 229 else 76
      else
        if b <= 130 then
          if b <= 126 then
            if b <= 124 then (if b <= 123 then 165 else 197) else if b <= 125 then 179 else 163
          else
            if b <= 128 then (if b <= 127 then 109 else 77) else if b <= 129 then 110 else 242
        else
          if b <= 134 then
            if b <= 132 then (if b <= 131 then 78 else 210) else if b <= 133 then 241 else 209
          else
            if b <= 138 then (if b <= 135 then 111 else b + 108) else if b <= 139 then 79 else b + 72
  }

  function InverseTableHigh(b: Byte): Byte
    requires 142 < b
  {
    if b <= 181 then
      if b <= 158 then
        if b <= 149 then
          if b <= 145 then
            if b <= 143 then 243 else if b <= 144 then 211 else 112
          else
            if b <= 147 then (if b <= 146 then 80 else 113) else if b <= 148 then 81 else 114
        else
          if b <= 153 then
            if b <= 151 then (if b <= 150 then 224 else 248) else if b <= 152 then 82 else 192
          else
            if b <= 155 then (if b <= 154 then 216 else 115) else if b <= 157 then b + 29 else 83
      else
        if b <= 167 then
          if b <= 163 then
            if b <= 161 then (if b <= 160 then b + 10 else 182) else if b <= 162 then 166 else 116
          else
            if b <= 165 then (if b <= 164 then 187 else 254) else if b <= 166 then 84 else 171
        else
          if b <= 174 then
            if b <= 169 then (if b <= 168 then 222 else 117) else if b <= 173 then b + 79 else 85
          else
            if b <= 179 then (if b <= 178 then b + 42 else 118) else if b <= 180 then 86 else 119
    else
      if b <= 196 then
        if b <= 188 then
          if b <= 184 then
            if b <= 182 then 87 else if b <= 183 then 120 else 88
          else
            if b <= 186 then (if b <= 185 then 121 else 253) else if b <= 187 then 89 else 221
        else
          if b <= 192 then
            if b <= 190 then (if b <= 189 then 122 else 190) else if b <= 191 then 90 else 174
          else
            if b <= 194 then (if b <= 193 then 188 else 172) else if b <= 195 then 191 else 175
      else
        if b <= 213 then
          if b <= 208 then
            if b <= 206 then (if b <= 202 then b - 106 else b - 80) else if b <= 207 then 162 else 164
          else
            if b <= 211 then (if b <= 210 then b - 42 else 173) else if b <= 212 then 176 else 178
        else
          if b <= 218 then
            if b <= 216 then (if b <= 214 then 180 else b - 32) else if b <= 217 then 189 else 215
          else
            if b <= 253 then (if b <= 219 then 247 else b - 93) else if b <= 254 then 223 else 255
  }

  lemma XformUndone1(b: Byte)
    requires 0 <= b <= 87
    ensures InverseTable(XformTable(b)) == b
  {
  }

  lemma XformUndone2(b: Byte)
    requires 88 <= b <= 116
    ensures InverseTable(XformTable(b)) == b
  {
  }

  lemma XformUndone3(b: Byte)
    requires 117 <= b <= 178
    ensures InverseTable(XformTable(b)) == b
  {
  }

  lemma XformUndone4(b: Byte)
    requires 179 <= b <= 211
    ensures InverseTable(XformTable(b)) == b
  {
  }

  lemma XformUndone5(b: Byte)
    requires 212 <= b <= 255
    ensures InverseTable(XformTable(b)) == b
  {
  }

  lemma XformUndone(b: Byte)
    ensures InverseTable(XformTable(b)) == b
  {
    if b <= 87 {
      XformUndone1(b);
    } else if b <= 116 {
      XformUndone2(b);
    } else if b <= 178 {
      XformUndone3(b);
    } else if b <= 211 {
      XformUndone4(b);
    } else {
      XformUndone5(b);
    }
  }

  lemma InverseUndone1(b: Byte)
    requires 0 <= b <= 98
    ensures XformTable(InverseTable(b)) == b
  {
  }

  lemma InverseUndone2(b: Byte)
    requires 99 <= b <= 125
    ensures XformTable(InverseTable(b)) == b
  {
  }

  lemma InverseUndone3(b: Byte)
    requires 126 <= b <= 153
    ensures XformTable(InverseTable(b)) == b
  {
  }

  lemma InverseUndone4(b: Byte)
    requires 154 <= b <= 185
    ensures XformTable(InverseTable(b)) == b
  {
  }

  lemma InverseUndone5(b: Byte)
    requires 186 <= b <= 255
    ensures XformTable(InverseTable(b)) == b
  {
  }

  lemma InverseUndone(b: Byte)
    ensures XformTable(InverseTable(b)) == b
  {
    if b <= 98 {
      InverseUndone1(b);
    } else if b <= 125 {
      InverseUndone2(b);
    } else if b <= 153 {
      InverseUndone3(b);
    } else if b <= 185 {
      InverseUndone4(b);
    } else {
      InverseUndone5(b);
    }
  }

  // ----- the two collations on strings

  function PolishXform(s: seq<Byte>): seq<Byte> {
    Mapped(XformTable, s)
  }

  function PolishXback(s: seq<Byte>): seq<Byte> {
    Mapped(InverseTable, s)
  }

  function ReverseXform(s: seq<Byte>): seq<Byte> {
    Mapped(InverseTable, s)
  }

  function ReverseXback(s: seq<Byte>): seq<Byte> {
    Mapped(XformTable, s)
  }

  lemma TablesAreInverse()
    ensures forall b :: InverseTable(XformTable(b)) == b
    ensures forall b :: XformTable(InverseTable(b)) == b
  {
    forall b
      ensures InverseTable(XformTable(b)) == b
    {
      XformUndone(b);
    }
    forall b
      ensures XformTable(InverseTable(b)) == b
    {
      InverseUndone(b);
    }
  }

  /** In both collations the way back leads from the image of every string to the string, and the other way round. */
  lemma PolishUndone(s: seq<Byte>)
    ensures PolishXback(PolishXform(s)) == s && PolishXform(PolishXback(s)) == s
    ensures ReverseXback(ReverseXform(s)) == s && ReverseXform(ReverseXback(s)) == s
  {
    TablesAreInverse();
    BackUndoesForwardIff(XformTable, InverseTable);
    BackUndoesForwardIff(InverseTable, XformTable);
  }

  /** One transformation after the other, in either order, changes nothing. */
  lemma PolishThenReverseIsIdentity(s: seq<Byte>)
    ensures ReverseXform(PolishXform(s)) == s && PolishXform(ReverseXform(s)) == s
  {
    PolishUndone(s);
  }
}
