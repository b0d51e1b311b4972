/**
 The power (-7)^((P - 1) / 3) modulo P of secp256k1, by squaring along the hexadecimal digits of the
 exponent.  Every line below is one division with remainder, checked as a multiplication; the
 conclusion is that no point of the curve has y = 0, so that point_add never leaves it.
 */
module CubeTest {
  import opened Modular
  import opened Curve
  import opened ChordTangent
  import opened Bip340

  /** c is (-7)^e modulo m. */
  predicate IsPower(m: int, e: nat, c: int)
    requires m > 0
  {
    Zero(Pow(-7, e) - c, m)
  }

  /** What a bit of the exponent contributes. */
  function Factor(bit: nat): int {
    if bit == 1 then -7 else 1
  }

  /** One bit of the exponent. */
  lemma Bit(m: int, e: nat, c: int, bit: nat, q: int, r: int)
    requires m > 0 && bit <= 1 && IsPower(m, e, c) && c * c * Factor(bit) == q * m + r
    ensures IsPower(m, 2 * e + bit, r)
  {
    hide Zero, Pow;
    var u, f := Pow(-7, e), Factor(bit);
    PowSum(-7, e, e);
    PowOfBit(bit);
    PowSum(-7, 2 * e, bit);
    ZeroProduct(u - c, (u + c) * f, m);
    assert (u - c) * ((u + c) * f) == u * u * f - c * c * f;
    MultipleIsZero(q, m);
    ZeroSum(u * u * f - c * c * f, q * m, m);
  }

  lemma PowOfBit(bit: nat)
    requires bit <= 1
    ensures Pow(-7, bit) == Factor(bit)
  {}

  /** One hexadecimal digit of the exponent, given by its bits. */
  lemma Digit(m: int, e: nat, c: int, b3: nat, q3: int, c3: int, b2: nat, q2: int, c2: int,
              b1: nat, q1: int, c1: int, b0: nat, q0: int, c0: int)
    requires m > 0 && b3 <= 1 && b2 <= 1 && b1 <= 1 && b0 <= 1 && IsPower(m, e, c)
    requires c * c * Factor(b3) == q3 * m + c3 && c3 * c3 * Factor(b2) == q2 * m + c2
    requires c2 * c2 * Factor(b1) == q1 * m + c1 && c1 * c1 * Factor(b0) == q0 * m + c0
    ensures IsPower(m, 16 * e + 8 * b3 + 4 * b2 + 2 * b1 + b0, c0)
  {
    hide IsPower, Factor;
    Bit(m, e, c, b3, q3, c3);
    Bit(m, 2 * e + b3, c3, b2, q2, c2);
    Bit(m, 4 * e + 2 * b3 + b2, c2, b1, q1, c1);
    Bit(m, 8 * e + 4 * b3 + 2 * b2 + b1, c1, b0, q0, c0);
  }

  lemma Power1()
    ensures IsPower(P, 5, -16807)
  {
    assert Pow(-7, 5) == -16807;
    MultipleIsZero(0, P);
  }

  lemma Power2()
    ensures IsPower(P, 0x5555555555555555555555, 0xC7140C47595594C9A3FB47955F76E9793734A0F5A927857A0C5DFF5F842E5B3F)
  {
    hide IsPower;
    Power1();
    Digit(P, 0x5, -0x41A7,
          0, 0x0, 0x10D63AF1,
          1, -0x1, 0xFFFFFFFFFFFFFFFFFFFFFFFFFFFFFFFFFFFFFFFFFFFFFFFFF83FA57DF48D5C08,
          0, 0xFFFFFFFFFFFFFFFFFFFFFFFFFFFFFFFFFFFFFFFFFFFFFFFFF07F4AFCE91ABBE1, 0x3C157AF0306DCB7F23E06460ECC5F1,
          1, -0x1, 0xFFFF9D4977FE13FB7196B35FDB0C7E8960AABEC6D4CB41B7C63235E6E23E6208);
    Digit(P, 0x55, 0xFFFF9D4977FE13FB7196B35FDB0C7E8960AABEC6D4CB41B7C63235E6E23E6208,
          0, 0xFFFF3A93160C6A3E06DE850B5B6DF1F562FE0D1E429188BD5EFF080071E37754, 0xC0AC1621D65B051AFC8529734A32F4022A41431B87946413CCF2ABB0668487D4,
          1, -0x3F71212238668D2F7A41B40949A020172F3F6BCCBAB9A075BA36F37EBF947308F, 0x19CD242494A6C7A6A9AE8CB5C69C9BEF0A8F3D45550EF23758635D6D9C76B951,
          0, 0x299B5720CB8F5235B702321E89FC9A0DBC9A44A2D9722C6327F8D9C219FE346, 0xDE8217970E0693DA10A6A0CCB19412F3AAF6D4AB0F97EA8BE70E606680489C7,
          1, -0x549C93529AB670155B21F9AE52F6FA8633A7218D4D4619F46776234D5DB629C, 0x29CB5BF5E915860E6C183048DC7A4027409A5424E94423C33F54C047DB267DCD);
    Digit(P, 0x555, 0x29CB5BF5E915860E6C183048DC7A4027409A5424E94423C33F54C047DB267DCD,
          0, 0x6D2C4FFBDB14D007E38361D8821E8791CAD456947D698E390007A2364BBA293, 0x8CDDB91833DBA20FBECB7CAF0A27589623964CDF39604AFC72BDEC62C4C5492C,
          1, -0x21E96D16100583DEDA27A9BF0DCA6A42B328B3DC7B076023319102B9134BEF1D4, 0x7179E4BAA38814288058F142F8DE52BE1D34A8C703136F6A9B57F09E30D838FC,
          0, 0x324CD5F6C929B3CB3DB3DA8B2011640595DD6E9FB9E00BEF7F14FDC307CE2325, 0x64DA00BDA4FADD7A862A1465D293769957A6F1AB2DD848C4A9433B847FA35845,
          1, -0x1161D4791F32AA1699F9B78D6E424D54CBBD294E23D3C37BAED18E96E7F812BDA, 0x7EA271786D5D984DEADDCAAEB2E57123B32C7E63909CD867562DCCB77DE912D7);
    Digit(P, 0x5555, 0x7EA271786D5D984DEADDCAAEB2E57123B32C7E63909CD867562DCCB77DE912D7,
          0, 0x3EA44EC65A5E1594CCBBFC86D74AA5D523651BA2D9B0D14140B1DC70EF87D504, 0xEAEF82231869D0509F2F3D8D14363A708FE2572A68B04044A11528016824E4D5,
          1, -0x5E53B15E6DA34D00A82A318B20910C2DB9616779D7210B3F4BA00F5CEE571BB49, 0xB64D795F3DBBE8B860694FC2BBB6F5BD2C1A8C2317AE44167B1DBBC3CDC78DD8,
          0, 0x81D24005A89D7DBAAA57D793A87A16DA04CFAF07382163E3A1DCEAECA3C6346D, 0x13C7ADCFAA4326448A6F7AF558D45374C988DF1E186449B1BF77A153CBD5BA3D,
          1, -0xAB2BCD78EF504927EA2D3AD7DDB10F9FA785CC584E515B372D83EC909FE49DA, 0xB62399F8B6ACB094F272EA2DD2B17BEAEFF1EDD692DB29FC09C3136F93914547);
    Digit(P, 0x55555, 0xB62399F8B6ACB094F272EA2DD2B17BEAEFF1EDD692DB29FC09C3136F93914547,
          0, 0x8196A3E11A5ABA48ED77DA59D55ACAC55F0B3C08765AD177E2BD79ECA9ED849E, 0x8414448C2F8C9EB4079299710DDA0CEB1CEDB0FC9AD6CCF464889A639AA478AF,
          1, -0x1DD025A0F710E85A06431A71F932C3948E921EEDF1047DEAFC9F0AE919737312C, 0x9D506FDDBB912C2A0FA1E94CBA15358E9F3A9E32F46A387E26EF51AE2295A1AD,
          0, 0x60ABC27C1387539C77D6805FD42A6553408EA628C6844957E6CBAF500F82CFE3, 0x5057481CA4C650F640C86BC173029D3D28B3812A026B15CCD4443801BFB8703C,
          1, -0xB07EABCBF75C78FEA3E982B153762D9CB2D91CC42626D2E4EE54B1FECF585697, 0xF433FE2F55CF611B52F874351A91C838AFE30AE892D6C69C5F6D522E43ADA749);
    Digit(P, 0x555555, 0xF433FE2F55CF611B52F874351A91C838AFE30AE892D6C69C5F6D522E43ADA749,
          0, 0xE8F327197ED178C4EAA7EBAB59C16ABCF59986B9B534E26EF20EB9FF3CCBD220, 0x943A57A122C555EF7EC0026F4A51A3436FE0395EF959E0214CA0E6CEC1D73EF1,
          1, -0x258C89252F67FE6DF26EF4D0EF07A6087865E9FA219ED4E7F532943E7FD38331E, 0xDA606BE6D020ADFB311487C9001BE310E3C7575A7644692E198F7051748F925B,
          0, 0xBA485C16350E82E841597FEFAA20AF7E2C249AEA11E50FD48BD394B7006C83C8, 0xF191E6899DDEA2A7A4415E739764DD169E75D382BA0FE078828DBCEDEB78DAA1,
          1, -0x63BAC327A832F1AB80D951F1A32B10C36811BD44067B310102861B1E284440EEF, 0x38F85319338ABB596E9C230853B79AA84C0524263933EEE989236BC742B4D11A);
    Digit(P, 0x5555555, 0x38F85319338ABB596E9C230853B79AA84C0524263933EEE989236BC742B4D11A,
          0, 0xCAD953C2259E8A92E9FC4DC8592026FF9595CF10DC1E7912581F640BD9772CE, 0x2930781B29D36715CBB777C0E4F3DFAE64BFB7691815A29FD0FACDD5AE589AD2,
          1, -0x2E63ED89B98822B9BE7726582D546511D8E337CD272AD727B0B23ACD92848AE5, 0x1C8AA55FF10CA0B48057A740CD98F8CB0B2D8A1822790325333F5C80EA209E2F,
          0, 0x32E9F43B2FF7573D02E45B20CF1FB4A6B71AA93067A06B14E65A1884E5B3F6D, 0x33A19D57B770DAFD4A25A5F0D2D63CDAD14064C181D324117DCA54F5E3BB1B9E,
          1, -0x48E48B09A4E2D9D4EA3E47E40F0C8D937AA53ACF70DF6E0147C9651343010DFF, 0x7E9BDA122537A5DBB6FCB679B58E545D0DB433A9579442034E14DA695A529F35);
    Digit(P, 0x55555555, 0x7E9BDA122537A5DBB6FCB679B58E545D0DB433A9579442034E14DA695A529F35,
          0, 0x3E9DC98BA85EC15327E7023B1B2D8B83A30AE03C26A508E6CD12FF3828E57C6E, 0x6E985277992760CBA4A4781A6F6B06EA654E0042A111667E97891D7B8C6C0C7,
          1, -0x14E72CA85B16FD38870EBC38AC10900FB0D9AAF04A264D5DE51A719B4168233, 0x1EC0CF742394E6D8D24A97B9020A34778B3E22D913B47F5AC735F2ECE31F6086,
          0, 0x3B1C1D70EA94BB027BAD1C12B5201CEA9C4618E8CEB8694C87624E635E0C194, 0xC27D582F4C514C562487CD104E8BA38F13F1E22FD14D20986A178C3DC79B8BF8,
          1, -0x40A4F813075A61614C805DB240B77085275E1626D59C0C35CE01AE7D7ACC5C23A, 0xBF43090CE5DD42CC78A925F1B49F0F2FDA42E4188E65DB91549D63872562FEE6);
    Digit(P, 0x555555555, 0xBF43090CE5DD42CC78A925F1B49F0F2FDA42E4188E65DB91549D63872562FEE6,
          0, 0x8EE5190EFC12644DFCE9CB8DF2E574BD273162B0A22A624EDDCD993F8219A9D0, 0x54F67DD2B112CDE7B742A0B075D51202697E7791B04BADBE9AE003BA25D64974,
          1, -0xC562CF5A44C89721FC073D26A22982E606EE754CF6E40D56870ADBB165DFD8C2, 0xACC5E9439EC70E0EE455EF3A3B3D0A199E075E7595FA1A724DCA070F479E3BAE,
          0, 0x749A8A73B3FA02227C01AD499F731C910EFE328674B8EB895D4DDBA17552C890, 0x7CC3E49AFF964C5C60FFDB61036AE6A25F08B21431514E4785E5A50CFDA117D4,
          1, -0x1A9A47F85871C02624B0DC229BFD5264531D55BFB45DFAB5BBFA3494171342F80, 0x86207ADC11EBE5E9C81FEABDF7AE9C7D6D42687952EA876E1F7FD56E3B84390);
    Digit(P, 0x5555555555, 0x86207ADC11EBE5E9C81FEABDF7AE9C7D6D42687952EA876E1F7FD56E3B84390,
          0, 0x464604BD54BDEDEDDDCA9C30E7A6FB5BC32E52BAF1B6C61D8CDF09C989D5F0, 0x2D9DDFFC76B64C5052CF2FBEE490F6B03A9F49C8D4FCE1CE0FF15B7CB7DE29F0,
          1, -0x38E62EBEC99C8F9195C014662822F0C4C2EA8E8D019D3B77F4D8E804CCF1CF93, 0xC4F2D362475071F1CDFEDA4B67A3277702CDCA1B6A4EAAA016744D4DA34F88FD,
          0, 0x9784BA02D18D29DAF9E143478A54AC15E431D0EFFB0E1D2FF1F38969B7724738, 0xEE2B80EFFA06988619B0BBF5327DA2231DE5FC65541DA50D3998AF071E9596C1,
          1, -0x60F126DF36D25C993D4EF23083ECA52FD1F1679BACDA0BE6B5E3C47224B3F5AA6, 0x76642075F002707DE9038E8531F42CE4BC5A6FCC425CA26BE2CA94645921DDF3);
    Digit(P, 0x55555555555, 0x76642075F002707DE9038E8531F42CE4BC5A6FCC425CA26BE2CA94645921DDF3,
          0, 0x36C07516198373F1D48C32740B4A6B7B1AC48D238B3CACC737E2D23CEEAC7A2D, 0xF7565633453E10F5A75C2C06562BBC713ED0A87F7E11EF6370EBC35DCF51BA66,
          1, -0x688C60432C19F72868BFA69C36A374B402F5C70B3D0B73F8C544B487165490F22, 0xB637C5D83CB379CAAAD30FC65E5B5B6146B52D46E9AB8D3F15D8D29B624E9AC2,
          0, 0x81B35976121FCA5D36AD90F27B4765A200C2190191299184C789F4E17D7DA39E, 0xFC61CBC58DCFD39BE7D2005727D4654198C05E46351E45BD253329B920436902,
          1, -0x6CDB4C5BEEBB2B42F3DE6849F344FC6CB10A653DE58D52F16481E8968FD590FEB, 0x273891888B802B3DA703C7CE0A994F5422338B8AA2CDB9F02E9F3425B043C409);
    Digit(P, 0x555555555555, 0x273891888B802B3DA703C7CE0A994F5422338B8AA2CDB9F02E9F3425B043C409,
          0, 0x60248D798FA0C1B690A705C260DEFE11D6BB72660AFB6734C78AFCD7B1F3AE5, 0x55C4E46E4BA9EF4CBDC0DF641BA8F4008C1CB96D72A7347D077BBC2E75038C46,
          1, -0xC92661DEC4C37FEE5F33F689B6A162479A90042D91A801264087653D3B8F4C98, 0x3148F610E2FEBFA9A867AF48804EC66720E663BCFF3FEDA1D75910BFB09839EC,
          0, 0x97D02FDCCE9AA09835F38311D3B6CE0D96743C1C4107F645CEF6363132CE0CE, 0xC0EBD9FC012965790C2BC908B8B62E2B43F49606E5C665007314C63B83A0E3BE,
          1, -0x3F9B261DB9025F5C25A2C8698C24F9353C9F8B499C4748B77187E191A71401C07, 0x1C69F91373611217D94F99F795940E5D284990B60B92FB60CB87A5559B822D);
    Digit(P, 0x5555555555555, 0x1C69F91373611217D94F99F795940E5D284990B60B92FB60CB87A5559B822D,
          0, 0x3275A5A8588B98338B51C51B5BD21C17595649A04B2C33B94BD004F5375, 0x116C7C44BDD9CF7186918BAE9F525AEB6F883454869C4C89C471DFADF56D3D6E,
          1, -0x84D1D5784C475EFA3E2B98D82BFFB717DE2BF8DAE671E6772355EC9E210F5BD, 0x7CB630D3049CF37FEF7A3207C1FC0A20EBF3ACEDC04AE03CF4C9B3B9D462EAD7,
          0, 0x3CC100F5E1D26AB9A00588BEE8292CC5426AA5F3110A6DDB9BD6E0EB841191F2, 0xE6706F31E7874BDEF77023EF1C701C058C153656871FF1B6DC5404AFC317BD23,
          1, -0x5AC03904A17F2168DA6DCFD57E63E569CA203E52174E4BE026DB0344505193B8F, 0x5614DFE2880585FB8811F42D74D8EC345C262C0A97BF4A1D115B51B29484CFC2);
    Digit(P, 0x55555555555555, 0x5614DFE2880585FB8811F42D74D8EC345C262C0A97BF4A1D115B51B29484CFC2,
          0, 0x1CF2081FF2956850002BF881FB3C0916E9C87D3B3994E00E700D0F2FDFB6D46F, 0x45E100D7828BF521B8B18491A893083A1DE5074165A918CFE3CD4D0B016C0AA3,
          1, -0x8585717E92696B174775C360FC12BA7249B4042345D24C4253EFA06BE7D16454, 0x526D5407BBA91C0775CC15B78B4F5161B0FD150DB1A474A43572700A8A1020ED,
          0, 0x1A8A38859E6337596D05FA135DF8664EAC4ABD2BFE84284F7BB2EEADECFE0A28, 0xC23DD6DD868A9CB7F12EA6C1B2BC3D3782F939A595D09AE9A87A46F51B60DE11,
          1, -0x407AC7C26F4C7317F80BA1E537F048B0D2DE4569184C1890E907B6DA73061F8D8, 0x2401AE38F555E086E610DF661F160F4792051C4AB67A5F12E4AD17DA226EE3C1);
    Digit(P, 0x555555555555555, 0x2401AE38F555E086E610DF661F160F4792051C4AB67A5F12E4AD17DA226EE3C1,
          0, 0x5107902D8038BFEAFA9A34B21786DE8D6BC538A89065F8D924A2A7A6481DB3E, 0x61AC3AE627B00FF84FB9D46FC432BF792679C1EF4931687E2D22F935C118F1F,
          1, -0x104DBCB8B4A48F31F3EDBFEB4B04C3C41F5E77993858A7C1345476EEE228306, 0x28209720D1332539E37876445B176C9F67A1500AF6E8D3398BA540E6F75E6DD3,
          0, 0x64A336062CC036AB336A8E44715684C04275754D97896F664202565EEF19BAA, 0x58FE3A91514A7DA566949CFCCBC00BA63D1AE4447AEB8BD653C8794E8246FB3,
          1, -0xD88E61253F8EDAA9E31AA314E1DF2AAB7083206C6C88128461EA45B37DDF87, 0xE79F5992641FD9A657AB5F1EB108E863A06A71066A13623E345D0832AF0CEBAA);
    Digit(P, 0x5555555555555555, 0xE79F5992641FD9A657AB5F1EB108E863A06A71066A13623E345D0832AF0CEBAA,
          0, 0xD190F6D693E0F7AF0FAAFD3B170C5D15F244DA62D70CC49C6562EA68C46CA296, 0xDC69235E1A6DA4DFF84271DD7EE53E9F87CABA951B3D35B9A3EA95ACFF7A0B5A,
          1, -0x530621FC66686F9F92D4467294376797ED9B142CD8397C014544CD1D5AB72F759, 0x97C524445894E44499D178E9FAE6AC27C0902CA95DEE58F88E7F8C0EDA4003DB,
          0, 0x59FA289976D345994CFD1C44A3FE72ADE36CD814473CBB35D31F9379B65A0507, 0xF72B44B8BE55BF5652D512EEE8F2FF1586C563539743E391D66EE30ED71C0D10,
          1, -0x6867FA9789694813DF8D70CA0D3E99784AD5CA8DAFE79864C65CCCE8CFA7FC74C, 0x187E402CEC626F294B3D95F333FCDCA9C8728F1760BFE4FCD1BC6951D92DFFF4);
    Digit(P, 0x55555555555555555, 0x187E402CEC626F294B3D95F333FCDCA9C8728F1760BFE4FCD1BC6951D92DFFF4,
          0, 0x257EA4BA8A1A3D07E721B5B4BE7B96927E5A24AA430A358F38AD344C993F1EC, 0x93D932C1639786674022F7A1BF6ACC67447A7D4881E517ED78156008F14E463C,
          1, -0x255B61BF8440CC99C92E8F4515C4CD029CE48B882548CE7CF45E5358BC964E39E, 0x202212DC5658180E6523C7ADADE32B9ADED1C6A83A1294E952C8BE737F253F92,
          0, 0x40889401980AF32E5067CDD8B4AE0BD02F8308A3157629367859814FFB9ADCD, 0xFF46059646FF31DA8C8366CA0F375C910661C517175802AB5ACE59B3F9D7AA1,
          1, -0x6F5D7FFFB0E350F114AFCED3EF94EFEF91385C35CEBB99286C22C8D94C324C1, 0x2F864BE0CEACEA106354B7158BFC61CA9CCB1D33BBD2F29A2682DD9413B9CAA8);
    Digit(P, 0x555555555555555555, 0x2F864BE0CEACEA106354B7158BFC61CA9CCB1D33BBD2F29A2682DD9413B9CAA8,
          0, 0x8D2965011B9597AB43B0C48C76004F9C2B9C490A9F4959C43651AB7A1BC1209, 0x523D00842D1607AE2CCDD6C2FDFF9C088D3803A78C29B6C621748604B5FE6299,
          1, -0xB8EDF411731F0FA45E913B3C28D542DA04735885580D7F66E8B9CB856515FF96, 0x3C45561A0856748715E854C5B1C91A8D618F99926364660F5165956E21F51873,
          0, 0xE309323BAE68579EB36A99DDB3A16FDCA4ED0D254AA68479B3BF2B1535E84A1, 0x73A71E1DCB6B56CF36972E227768FB5717E38363013DB539557DB729A02BEE1A,
          1, -0x16DBCFF118639D4441FE2D7CCDFD369A9B3AFF6FED12B8A8F9C231EA42D7F9066, 0xF42669FB0EA0C77576F11527C6479D760F86AFD81BBE9CC9E9DBD493E4D7703E);
    Digit(P, 0x5555555555555555555, 0xF42669FB0EA0C77576F11527C6479D760F86AFD81BBE9CC9E9DBD493E4D7703E,
          0, 0xE8D93FCA364ABC28B5565699E1205E8CE62AF754EA5E325A4F9F682D1B1B9D1F, 0xAECE57BD92D07260A3A5C95D35AF46C489F96062F85E5F934E6E3DB39DBCF253,
          1, -0x3438C07212F323FDAA1F81A93B822180692540DCC3579EDA1CA7BA239A6CA1D68, 0xF5FC1FA3559477D66C910BE2C922EBE83D04C46B4728B168BBBDA94E29A695B9,
          0, 0xEC5C8CDCEF47A09C66A5D558092DC9F06EFF154270F6B746F2BAD44DB4FDCDA5, 0x9FCF2BBEB5CB14A3DD96CB92FC998E7A6630FC8F48BAEBF2C324514C821AB266,
          1, -0x2BA54FFF6B1F928688C250EF1DE245C365462A675C2323EC23F2C8F23E212823D, 0x799AFEACA608629F6D62728E88ED5A43F4FF8287C0BAB43D40000A170016F0B7);
    Digit(P, 0x55555555555555555555, 0x799AFEACA608629F6D62728E88ED5A43F4FF8287C0BAB43D40000A170016F0B7,
          0, 0x39C3E2969A06BD3987DE6E33FA5AD9E446A53B7C7CCC3304F419E6D69812F09F, 0x45C39752CACAF5571B11EB0CCFA6A03AAA65ACA95335F2627DDA7889A213F1A0,
          1, -0x851523119443DC30CBAC3EC534AEDE6340F5D1B2E0AE1DB9D54BF87C8D8C702A, 0x75980C7A5AFDD1A62211FBBCF886D3B8F281199417BA46B10AA13437FE6173B6,
          0, 0x360455B6A913C20D7657BE10B254B10A00CCF40F8E484B276E2A71EE844C9F2A, 0x505CE52AEEDFFFDBBA9930518A08982648280B7E6F872C4A98DC9D5AF4A474AE,
          1, -0xB0975692711EB4509ADF4FD10D7C0843FF06D91BF4DCB35E2362F3D90DFBADF4, 0xDCB31963DBB61A9FC3C8E6607D7538C6E90CE3ED0E7A6A85382E1DCBE5AA13F0);
    Digit(P, 0x555555555555555555555, 0xDCB31963DBB61A9FC3C8E6607D7538C6E90CE3ED0E7A6A85382E1DCBE5AA13F0,
          0, 0xBE4450F025CAE6491089F5CDE3DAE5EF746736EB6CCBB89F87BF01DFFA8C1C20, 0xE95EE7176128EAF778EBD28E56D7A92695DA6128666ED85BC70BFB350D04D720,
          1, -0x5D1313AE1907540AE56D88E45F33C4AE439AE53AED16E986F6275CB3CEAD720C9, 0x36FE7EE1F87CAB85441E132434F4382B06E42AB68F95DAAF76C50366008C84E7,
          0, 0xBD05A875C20E7D20A5E541969E4F6AFD17DBEAF47D813A429E4C73522CA9262, 0x445457C77F307D5B47178E967AB670B34735C83A766ECBFC3F84736168BFB073,
          1, -0x7FAA68F1F01D0450E826B8FF0F6BF49FAB7A9BB3AE21D93FAB34C9CA3A707B82, 0xC7140C47595594C9A3FB47955F76E9793734A0F5A927857A0C5DFF5F842E5B3F);
  }

  lemma Power3()
    ensures IsPower(P, 0x5555555555555555555555555555555555555555555, 0xF01C2FE0041D21BC29230207166EAB5C97F79C1E469268B904E73791FC7C89D1)
  {
    hide IsPower;
    Power2();
    Digit(P, 0x5555555555555555555555, 0xC7140C47595594C9A3FB47955F76E9793734A0F5A927857A0C5DFF5F842E5B3F,
          0, 0x9AD02CA8D89FC6F36F0A55D6463EE06DE29476ED05B50B75C9C1EB6372AF4A83, 0x61377D697B5A6E142BD5D3333861A4C935D9640E326CE52A5BF7B24B92253774,
          1, -0x1026DAF7771AFFB67370643092231E342B846FD31780191A68101768C60800AD6, 0x9DC8BBBACBEC93E5AE5AC22F46C89F4FB1B2378D2E9A0717F78A9903FE894D5A,
          0, 0x613FD3A8FBA93D47650543A6A1B2E697424E0E951547B5959E64A5CF24384C5D, 0x13753270978397D3B9CD05FCB75AC960FBB479F85309D97C61F3B24B48EB291,
          1, -0xA5A3DFAFF6968ADC0A6442F171585B20C8DA94D872ACC79AA6A6B4C196665, 0x1F92D5828C7DFD8566EB364DBDA776896EF0CF6FF85AE4F6322E3418252A7DA4);
    Digit(P, 0x55555555555555555555555, 0x1F92D5828C7DFD8566EB364DBDA776896EF0CF6FF85AE4F6322E3418252A7DA4,
          0, 0x3E4E3EDD90143782005DF7C2BC41E4ED96CAF51F4DB5DC9FF7B04C0EA387257, 0x21262014395472712078C4D85CCCB40762964C62DF3D5192660D14B3C0E5EF17,
          1, -0x1E0BF5A345A0F988D233928226B07A1A93C0933A4AD0796831865583E6AC8818, 0xA48609FB7F1FDB9DCE451BC13705AEB788892F0BA1AA900F818845D26EEFF1,
          0, 0x69BC02F8AE8D8CBEDE86DBB97384CB05AC5718921729799D92AFC1252490, 0x6C12CF646FF3625E6924AC5188245DD24C638DBFA35551A5EE1B8EF496C06A71,
          1, -0x13F5F2295F42CBFB933358F47B112F195BD6361D6DAC095CF1B3AA047E67F38CB, 0xFE42E2D1C653818700F6EDAB10A6EE8E979FBB6796ADD6AB005CDF70882BD81E);
    Digit(P, 0x555555555555555555555555, 0xFE42E2D1C653818700F6EDAB10A6EE8E979FBB6796ADD6AB005CDF70882BD81E,
          0, 0xFC88CB9202AF06278E37A2AFA4A3E01B7ED1736C7B04736E7330FDEC75B5FCF2, 0xBB208BC0B52BC9FFB9D5F71DF4C402BD91F3E2C9C38584BD3A8F0BC16C10FB16,
          1, -0x3BD7BF227640AB5035CC6E544353532514703244A9477DBF51FA19BF9E06A0BD5, 0x18C17CE17B80D28FBB47C5120090780B17D9F86163B598EFFC2BFE792C2BCEDF,
          0, 0x264D9A7D00F95F78FD840689B3429A0E87D9CB96A2F0C183ACB38B556B8100D, 0x5CAE003BBB39AAFEE759AD2D94A62B4873E107EA01C3388FF6C0A586C28AE7DE,
          1, -0xEADEAD0ABE5C16A0741B74B9A0FC4A1D020D3E40FEE8FA1EF149CD8C9419A2FD, 0x3AD744CF99B5243AA33AD5F1250CAEAC84813BA4C06622644934C91AE4B038D7);
    Digit(P, 0x5555555555555555555555555, 0x3AD744CF99B5243AA33AD5F1250CAEAC84813BA4C06622644934C91AE4B038D7,
          0, 0xD864032B8D934AF96EE98CA31CBC25FE94F8BDC110B0C3EFE28861AF1AE965D, 0xEEF4476F4C15903790FCB1F4ABC593569A57B598F4C06C6C9905EB6A878A9D7E,
          1, -0x6194DD16E5AF060F0D3B6867C38949851B115084DD0247FD48AFB413F73C828EA, 0x4A2860F975720C2AF1872206E2E7FA838113785F3D325A83B4F92565ABF954DA,
          0, 0x157B5E6EAA96ADD7D7EAEC83E75310331BD132D1C30306A488504823000BF052, 0x2E4BE146FF7BDF61DAFCAAAA1C38D257903E64D8DFF0779C134E401A95C3F296,
          1, -0x3A9B80270398A57F97E11988C4711EA992726C04E2F706ED998A93D1C920B70C, 0x5AC075F5642D86B340F3BEADBEAC3CD1322EB2D69730AE4F702F7378E969DBF8);
    Digit(P, 0x55555555555555555555555555, 0x5AC075F5642D86B340F3BEADBEAC3CD1322EB2D69730AE4F702F7378E969DBF8,
          0, 0x202BE3A1B0E07FCA9A04157DFA284E228D58A62411881C13C5F3481671C4827E, 0xE64D489119AA20888626F89285BCD2D1C0F8674D187982C56FFB86D5CD68431E,
          1, -0x5AA48B81239CF885AAB715164288B9FE131DF170BBE3FF8C224D027D4A6395B0A, 0x88FE4AF3B1BBD520F721A3EB6824721D95B628F77D5306473B8BF143154E8A3A,
          0, 0x494F2C3BBE5E0DE9713116E8A7C019FC5A9D8FA605A2EDB5FB90DAFABAE7B171, 0x47FF15D4A8411AEFB02681E5BE16A48629444C121210295EAEDAF1765836C565,
          1, -0x8DBC65FB31E7344CCA5227ECEFC57E2504292E9107A704FFCD78DDA7831EC4F3, 0x150D725F2236157522581AF8531AD62845EFF3468908C3FEFAAC71006FDE27AE);
    Digit(P, 0x555555555555555555555555555, 0x150D725F2236157522581AF8531AD62845EFF3468908C3FEFAAC71006FDE27AE,
          0, 0x1BB35786C5F36D5F95A9A059C9A57BE249E62C5D145FAAC6A39BAC4D6F92FD1, 0xB678A326884C7F34C461D69B7F007C310101E34A1F6AD2D5B704FC3B28EDF6E5,
          1, -0x38E6E45CD094E7BAF1DC4D8672938075F8FCFC1767FBB7F77308A4BDA4F0C0560, 0x366F4512244C2CA05CD58C8775F487E1B8DC1A6A37E24216F4EF5F1BE4471EB1,
          0, 0xB9321809FAE65BC8A24D448D01EEEB295E12BD48A9A7A3C8B08D92ABC63D5EA, 0x3BE0641422ED3ECF8D3F4BF31332F2339229A3578DB76A68CAFD3BC64ADF586B,
          1, -0x620863B4013B8102E09765BCBEC4ACDA075ECB75C1F70F3497E9EEDCA5F1C07C, 0x64BA7C41D2C96484ACA80BDEBCB0EC364B46BAB2BE2DB13042D7D5038DB63DB5);
    Digit(P, 0x5555555555555555555555555555, 0x64BA7C41D2C96484ACA80BDEBCB0EC364B46BAB2BE2DB13042D7D5038DB63DB5,
          0, 0x27A238EC38A3784D88E2C77266FCF68ABCBC41DD614A91A15356C837FC815835, 0x9C16048B40B239A850170E52D52839FD1C63E3F87682E891E8205BD2D7DD643E,
          1, -0x29A2BE405780ADAB3839F5740762FA63FF970FE85371EAD92E566423609C3C351, 0x3C9E4C3628DF016375802CF60462463CB9038FF7AE0A1B729CEA778F27CC1EC3,
          0, 0xE5A959B8CB32FA6034735B6FE813589AA3D301958614F2E524A3B796301BBC9, 0x3FB1A6C7D6ED12E9D73DD8454B408718F83AF24FDB39E0A0959E32064E17F2A2,
          1, -0x6EEE6F94DD75A515D9E7B8C4E1F6F701FA23DA850459639F0B5897EF5706E2D5, 0xD3FF7DCD9B420599DEEF9E86A3C7FEB1685B848C417B83F60E0478EE5D358B7F);
    Digit(P, 0x55555555555555555555555555555, 0xD3FF7DCD9B420599DEEF9E86A3C7FEB1685B848C417B83F60E0478EE5D358B7F,
          0, 0xAF8F285CCB5C91834D6760A40635D28FD4FDC2F667D876247AF3AB9948F3420B, 0x790ACB7FA5E63B7970CD6693E3149A4A9086AC875889B928692388BBBCF834FC,
          1, -0x1909E71C661F20CBE38B642E6ACEF66B1DE5E4437634878AA327C379A67975F92, 0x7543AE7261CDF8BEC5F90873771684DBC415AEB0E93CD3111D31DDC2E0C8DB5E,
          0, 0x35B6EF595425273DD3C3DD53B5D55EEF193ACD722228FA6DC0B3ADD6525A3083, 0x527A2453022EB7EA86682B305BF451793F6A7A1BCF131C3A469D8367490D1A77,
          1, -0xBA0152D2BBB03927A5B9BF9C1A71D5D00BA653052193D83D457574922F040C47, 0x50AA5079A8B648F199EFACED5EA29B543F75775ABCFAAB4808AD252C9BCC6DD2);
    Digit(P, 0x555555555555555555555555555555, 0x50AA5079A8B648F199EFACED5EA29B543F75775ABCFAAB4808AD252C9BCC6DD2,
          0, 0x196AE39B045242F2BA2DF4883D6762EF7B2AA43BCA045665C467ABB227BC50C7, 0x9D0079580081C0B1AB9A8D529D72C9C280D9E777783EFE2D4A0C381C277CC7BB,
          1, -0x2A20311DB26F8339280E9CA503B7DE10E49BFF7755CC5D41A76BA893AF1E354C0, 0x5B6BEB0CAEE7A991FAAABE223AC41DCA153D3D468868BACD541D9F375683BD11,
          0, 0x20A5E69958C331F3B6C691F225FDC30526AA40B7B0B1C6A39AE41688C1878E3B, 0x505EC177CB7E3435D6C92EF460ADDA644056326633A857ECE8EB0460D5DEA4C,
          1, -0xB09F83EEA5932765B31E1A237E0F5F9082954702743F8E7935121693914936, 0x76D29134E9E70F096929EEFD27FE0323763303A3F6948BD613318DF24EF66AFA);
    Digit(P, 0x5555555555555555555555555555555, 0x76D29134E9E70F096929EEFD27FE0323763303A3F6948BD613318DF24EF66AFA,
          0, 0x3726CB0F54CDBCD8F3005FFCF743DF296FB6D8E1D18E203D02E8961C615646AB, 0x4F7C824BB2BA55705A730003DE494D8E4EA5A67324B793775EC3E404976FAEBF,
          1, -0xACC292D06BB3CC06F9CCF0D8EB47BDDCDA24EE80FB392EE40866D06FBCB60F3F, 0x8A5F27E532AE47BA92571F24EA3F66CE3C1659373E2A4236B7B41E7588C86F0A,
          0, 0x4ACABA61BCF7255331EE4147BC2F290D1BCFDF243E3BD52DFB921F9B0E47A50A, 0xECFBF7D5E6C9099E67635DF5E2BA44A51BF186BCB5795EF1E353ADD7CF36878E,
          1, -0x5FFAABEA02839C22EFCC65876EC340AA54BC0715CBD4A3C5CC67156E46FE34969, 0xF2FD448414815DBB472AC0403451D639B0ACD168BCA894C475435583BCB52EB);
    Digit(P, 0x55555555555555555555555555555555, 0xF2FD448414815DBB472AC0403451D639B0ACD168BCA894C475435583BCB52EB,
          0, 0xE6A3D01A362B8BF337901CEE5838829DD30F486400961681EC6E32CD7E720D, 0x78747CBE5E7CC7D66A04B576AFEA34A43BBD9E5752ADA838C31CAB342D1EA756,
          1, -0x18CBDE5AA4D3916B3B7C1009935CFC8FDAADD906A294C447610036694C83102D2, 0xA853262AFB50B125A7393FB1AD7A03A56EDB8246027B87AB9373DD4ED2330652,
          0, 0x6EAD3D1A2F69A8A7ABAE358766A02529CAF9D512B1C0316FCE31C0B6B4B8E120, 0xA9CDD1FA9C98B655D4126FBE7CF035E6CDFCF15941D7FC3F56DE88E9C2671D64,
          1, -0x31469C0FFF8811C6E6EA91808DD46E6442E830AA680615247E9F703B7B1867BA0, 0x6C15F022E8EE5C9DD7B743454B5480C9FEBA9E2AA7AF072A32D0F58DE8DB88F0);
    Digit(P, 0x555555555555555555555555555555555, 0x6C15F022E8EE5C9DD7B743454B5480C9FEBA9E2AA7AF072A32D0F58DE8DB88F0,
          0, 0x2DA2847EBB84CEC200D17906D9B88B3AB6471537DD633256D154C748AE580D36, 0x2E9EF62B81BC38CC03D2964230E6A9B32663C3E0DBA707F862A3766DF1EA4C16,
          1, -0x3B6E9636FB4FFE56095F9E2E6E4EC86E7D6334AE068D08AA865CE1EAA3F139AD, 0xF08A9660DE8C71AC3E8B861675989F0E03719D92059BCAF7319C3EDF188F6587,
          0, 0xE20424FC1A0CEE01C2FC068459D3BDB1B215AA42303185E55314F98C84C629C6, 0x507631E7693879BC07EB40F350570663B7999CC93F3B963343B6039A9D5B39D7,
          1, -0xB1069852B9C2E946F46BAF182E1DD323D1E953808FBC491C1BA75ACF7203BABD, 0xD1AC7484380D52846C1C9BDD38EB879DFC0A2F2E5E5745DEB58728B1B25432BC);
    Digit(P, 0x5555555555555555555555555555555555, 0xD1AC7484380D52846C1C9BDD38EB879DFC0A2F2E5E5745DEB58728B1B25432BC,
          0, 0xABBB0A6CAA3929B90742EC457E4EE080F3FFC49DDB01E0C6EE73B3F93D5E8851, 0x97F7AD4050E7A53F722CC58EED3318808082527E31D508DB03BA7CBAFB343731,
          1, -0x2777AD20B8F9DAA2782FDC6A512D9D120804D4713C152CF339FC7CC7EECD2BCE4, 0xDECBFB54EB487F773378DF59EE657AA6E67BE1EEE45582FACE5C1C264F1A7A35,
          0, 0xC1E66A6FD77E83984E16D8C7CA695CC8FE24D4488A7598910619A368929A5589, 0x8AD7066CA6B42B11AEE94F5DC3BB0002ED2C18D449DB47235B943186421AFED2,
          1, -0x20F17B4BE84B8B0EA881692991E4E91D39ABEF6F0E94BEC01ADB232702D262A1A, 0xF9A3E0EB50085891A85923AE6767435020948AB24B0E48F29EFBD36773B94EA);
    Digit(P, 0x55555555555555555555555555555555555, 0xF9A3E0EB50085891A85923AE6767435020948AB24B0E48F29EFBD36773B94EA,
          0, 0xF3703471F2F4CB46C6508294784DF814CC8AB2245F10D127BAD172A0182D03, 0x4C8950E501B4CEEEB55F6CA22E60F754D8F6B97227D85BAEBF8A4C7F82BF2E57,
          1, -0xA02CBBCD95C9C631EA07B8A17AC26514303700C3BBE556828F6AFFE2DDAB2B81, 0x6352303E300AE8FF6C0CF6BFD25D7F676E1756E302D08D21D48DBE933E494DB8,
          0, 0x2688ABB30A16985236DFFB3A72EFC877B702C2E6855AC8102C9A4173DF6D4485, 0x9BB3F73C785BD5247D81144CB168EAB4615ED12A70CD6B3BDB8507AF3A8AB3D5,
          1, -0x296E7F3505194D570B5928C003BC26E8486ED70933C5C661BEB62205CAAD7EE11, 0xC1BE57ECDB5F5A9CD969FDE2D3342D67639B3E67F4F739364871F958C2278690);
    Digit(P, 0x555555555555555555555555555555555555, 0xC1BE57ECDB5F5A9CD969FDE2D3342D67639B3E67F4F739364871F958C2278690,
          0, 0x92A08E19C48E406B04067FA88199D1B0E4C1B68404E781A66FAA2ED656C8B403, 0x2444C6B0CFB65B9254978508B22D7AEA808E1F0CD4184AD33C960510BA921073,
          1, -0x23F7E88331ED52630D2DA3B1895976B4F6EE63E363C9AA1EF5D0B6C0F4CF546C, 0x6245A1C14F6193A49C10369185046A3936AA4119F07C7F45BA3157DC9324C635,
          0, 0x25B962C89930377523AB9355599521794BEA464B0D61C648EDA26C7638F601E9, 0x4392730D1467734449D1F15EDF72705857771E6978050584409FE319993B5132,
          1, -0x7CD9E401F3233D54B3925C2C062C106C12422BC574A714839BB0867BF9EE6C2B, 0xA69C723DB1749FBC1D107F701FA6B8709A89B830B37586327584ECBE1D7C6F89);
    Digit(P, 0x5555555555555555555555555555555555555, 0xA69C723DB1749FBC1D107F701FA6B8709A89B830B37586327584ECBE1D7C6F89,
          0, 0x6C6F43C3704E86348DCEF4EC8B65BF841E958E15F81DB64F32AE1C51C4773320, 0xFB069F6D6CCEDE6E0966F1D864B77FC85D3AF9CB349D17E9A3F8DC4C123A3471,
          1, -0x6BB09E9970E77109B101F3F0DE0103D432EED4A743F838BCC4DD68B44E0E32C77, 0x86A40FED1BB14911C464A2DEBADCE41BA1E9A3C72A16ADC176D42BC0DF6498B2,
          0, 0x46D029D0A1C6B87F482D3B8B254444DE54F5899E44965C6FB111A87B2F0A8E6A, 0x92A01201A801DFB1A890AB61F1798AD1B72CF881326C56DE975FCD16496D5E4E,
          1, -0x24BDCCC62D0CAA7E8DC845F2C0E4E782B2C208542E2F9AEBF9DBC2CC24D4AB0B3, 0xEADCC2BF48E4B1B7CBB4CEA347C1D915D60E0C7509209F43A011AE5E89D20681);
    Digit(P, 0x55555555555555555555555555555555555555, 0xEADCC2BF48E4B1B7CBB4CEA347C1D915D60E0C7509209F43A011AE5E89D20681,
          0, 0xD7785264FE2DD75DEBA9D9CA1625C060B8AAEF69DE8691743E5BD35462AE4911, 0xA6BC1BA8118358E32494BF9553EAE4410D8573D03CA11C57D88681E58F326E2,
          1, -0x2F82B729E2BDA9F94C7C973CCDDEACF8793A365DACCF1CF99C0F9FE825751DC, 0xBB113AF4738D4DA0F3C85C69BB630251FDE397EE6994BA97E2E4F34910157AC8,
          0, 0x88B22D4A02DB75F5F43842A3737A60951E9C45D2DA7E408EDD3DCCA7BB1A618C, 0xFE7DE9B5B9CFFBC5C94A775D34AA71345ABF639031D20240DC8ED4E36F61838C,
          1, -0x6EAF2B3E2BED755B495089BCAEF92E69884989967CF799D022A4C6D8B72260C16, 0x6354967FA3B30FE3BE188B87C0B3A656D9E7F99041972189A419C638DAF7D01A);
    Digit(P, 0x555555555555555555555555555555555555555, 0x6354967FA3B30FE3BE188B87C0B3A656D9E7F99041972189A419C638DAF7D01A,
          0, 0x268A8859D4D9BF463D71E63D2D8A81F39AFB4AA3609966B8FB4CC86C68F50D9E, 0x27F72F52014E65AF3A782E9E45D91E204E4FF360C17186974BB0350A128F3AA2,
          1, -0x2BACB9A355B95916A0A07284D10A8E1164956852B5A246CAEC8009D58C86F03A, 0x47FF11FDCF143CAED127C3999B09DC19489AA95EB7A82653BFE2BC8754208D0A,
          0, 0x143F7A1FA1C3751D81D9A0C3D086BFE2DAB6D832A619B711096961CE8436E059, 0x47F7FC9F5BD585E4C126D22F5E01875DA4C716EFEAF79D57062DF6BDB5A2380D,
          1, -0x8DA07474F4306C19DC6B0A728D13AF95560D30E56B70002D5E18A56F7CC10AFA, 0xE38FDE2B9FA66AD98568D2F997893157BDEAB1062DA02255F85BD5CF4C314747);
    Digit(P, 0x5555555555555555555555555555555555555555, 0xE38FDE2B9FA66AD98568D2F997893157BDEAB1062DA02255F85BD5CF4C314747,
          0, 0xCA4874DB52AD2DBCC8643E9FE71E70C37A5E86FA80F365FBEF29849D5F74B6AF, 0xBF4C432E8B0C5F8A1934C151F920EA78C501B917260C2E07A85C89E8D173A790,
          1, -0x3E8A434C3DD42EE14C31F38BFDDCBFF8FAF191F71DD27857F4F302049FE6E4049, 0xC35AAFA21DBA207B9525A07E0E5DBA4933E0727C6EED82F4220D5F634DE05267,
          0, 0x951347B0EFC57FA93789F5F64F0EBCDCAB6AED479F9D7703FEE57C1C57E123A2, 0xD71B0D0C0DDE3990B0A84C32D42C4746C355CBBAB92CBBB1AC7EAF99A6FF22B3,
          1, -0x4F135236A0382F0CD58C4903DD330B02A57131133EADF410C531717A6FBAA4DDD, 0x510E912E17B0CAF475DD14352CCF9A7807F06C5F9EF29F72185FE73689EA9774);
    Digit(P, 0x55555555555555555555555555555555555555555, 0x510E912E17B0CAF475DD14352CCF9A7807F06C5F9EF29F72185FE73689EA9774,
          0, 0x19AA38B35E5DB6E7B0F5E6E646BA4363407FADB1148FAAEECB87BF5AB99784C2, 0x44FC4447C66CC63014854D37B644D7102787F17BAD5DE5077958F803ACEBB4F2,
          1, -0x8220EA08668682D03ADDECBE16865D7244ED08BE1B7FD71C3BBAC52E194D3991, 0xE91F7C6C029C8C3FF8C18A03A90F0863BB9028447A69982273EB64A032EEDC43,
          0, 0xD44A545BFB6269504649ACFBB25087DF1B6B4AF23A9636AAC3048C1B38E3B939, 0x1A4657870BB598DC003CFCD299688A0F02A0EE77E5B0E810630A45C5932D1C12,
          1, -0x12E08BBFE71A80E97240A5FE1E316A64E015BAF9209EE3FD152295E6700D7510, 0xDD6A363502027E23C86CC8A187A4298F40C9AD925BA0F617F8EA45457ECCA514);
    Digit(P, 0x555555555555555555555555555555555555555555, 0xDD6A363502027E23C86CC8A187A4298F40C9AD925BA0F617F8EA45457ECCA514,
          0, 0xBF808DA874D85FAD1FF129DAB17D0EF054CC35F634A7AF9191348D03D4E41390, 0xDE50CCBFF35DB63B2CDF90B92B1134C32E37AEF287A88853711E1A0EACC17220,
          1, -0x54771A84EA8B7D4EC850975A9D613531C324FC79FE77D1E8048A32E04B5E08B0A, 0xBB31D4470C0597E2DF507418C7BE68D9CF1F419C13C5A4FE946C5BC1F029C2D6,
          0, 0x88E1D5D2BEC885AA86538E7A521FC52B52C0FDE18A935766C94817ADAF1CAB6C, 0x1AAB959908FE593DF48C064AA6F65A433D8C3DAE25ABD7C960994812893F4210,
          1, -0x13731DBDF5D8411D72ABB975B7BFB63ADC15FE89B4C1148C65285FABF8AE42FF, 0xF01C2FE0041D21BC29230207166EAB5C97F79C1E469268B904E73791FC7C89D1);
  }

  lemma Power4()
    ensures IsPower(P, 0x55555555555555555555555555555555555555555555555555555554FFFFFEBA, 0x7AE96A2B657C07106E64479EAC3434E99CF0497512F58995C1396C28719501EE)
  {
    hide IsPower;
    Power3();
    Digit(P, 0x5555555555555555555555555555555555555555555, 0xF01C2FE0041D21BC29230207166EAB5C97F79C1E469268B904E73791FC7C89D1,
          0, 0xE134DCDE89AB8B2A13B9B0371DFB070D24A4F8C8CD2DB320EA045DE956F581A9, 0x5E4544FC7B5E8E55713F59D9F6F11ED24741409575339965321F41D9239D329A,
          1, -0xF30099D5BD0D5459C126437A620CBD8BE5C99BC8441091A8A24087F0E9621182, 0x6D836924B3580B677D57F30C77ED198EE6474DDE43456C2C6D36ADFAD07B8E62,
          0, 0x2ED92AFE0777A632F469852353F07344434E7B07C84ACBF2B29E6A441C1B8182, 0xF34C0A357259E0B82E0C6B8A025AC67891A053B58118841229929DDAA6561EA6,
          1, -0x652921DC4B29B32828E63B199A00CA89F28B46B580C8B2676BA41E3E715528DBD, 0xD8F340408ADBAFE3310A28D088E416D08B50A86966B539D9C1696D4B6989C837);
    Digit(P, 0x55555555555555555555555555555555555555555555, 0xD8F340408ADBAFE3310A28D088E416D08B50A86966B539D9C1696D4B6989C837,
          0, 0xB7DB638FF4FAAB92DD2B5E6E54CEB648460AC51917DA72CE0045EA99DED3DF25, 0x9232CAF773CA0DB2C6932103CC01A7BDBB671E1FCD219B066B82AAFF6C0A9806,
          1, -0x24871D31B2391FF4D6B8FBEE1E43D64CDED51162DC1B5B6386E850283D085EDE3, 0x8FFE77645ED68021E8BE05E8106CE1F9140EAE6EFE6A20E516F1186D25A53FB1,
          0, 0x50FE465344CE4C51CB23FE5ED88B305AE45C493EADB327B68BA849635A422BF5, 0xC0F70260A40C455D1FC9C28BEC01A850F2706F33DAD4F964BEF6DBEECA8C5A66,
          1, -0x3FA281D4DD8105764398E48AD4665BA6F7286799F72C042100BA607E97F1D407A, 0x79AF8A08970FBCBA32E5428844F0614587D0C36AE3CE468C70C7C88C1CF9C9EA);
    Digit(P, 0x555555555555555555555555555555555555555555555, 0x79AF8A08970FBCBA32E5428844F0614587D0C36AE3CE468C70C7C88C1CF9C9EA,
          0, 0x39D768DA20F8AB12CC466A737286FCF9759EE869C3C558A344CA2F8606A2A47E, 0xB9BA19C690F2F262615F92E773E3838922B108A1A5751D8A380812D2EB2B0EC2,
          1, -0x3AF3583C9306F07C4C265FD83CDC618B5E8B4887E0480298A72BB580334AC34EE, 0xB3CFDF9D6F1009AF2FE28BEF8792B8D63CE194941E53F28F4C3BE4830CA17296,
          0, 0x7E4C5B818D3DB1CA01003FC3D2699AAC0F9F2EEEF9D8F7F8FEAA847DC68CFFFC, 0x8576180926AF70D40B40EBF374BE00BDFCC5B6F641DBDD5F126AA2122412E0A0,
          1, -0x1E70B7029BA39B7DAD98E8A5AF29D2E97ACEE4CA51F26B65BEEEB3BBA9EB9594F, 0xBD26BC1A99EF1698EF65B211F340D9B8B66DC9B9764D9D080DD3E1FFBD776D81);
    Digit(P, 0x5555555555555555555555555555555555555555555555, 0xBD26BC1A99EF1698EF65B211F340D9B8B66DC9B9764D9D080DD3E1FFBD776D81,
          0, 0x8BC2379BA967CF3351341A1B5E69B4E69EAD1742DFEF3E6376DCAF028B548EC4, 0xD76E5E13E50A9FCBA16B765678228066F6A2F08B829ED92FB6D4EFDF3479F505,
          1, -0x4F509FB38CCB70EFEB9D97380FBC7F2DF0D75FE78E61E56F47E6B748822B15104, 0x10AE7525E08125B448179359D36CACFA31AB4629B205A4B7A8291AFCA0A1D10D,
          0, 0x11645883128F91680C2E59C6F7135FED669540ABC59DBC7D54A6C9BF534EF92, 0x6FC30FFF1424FE271415ACAD7D51105018E734F51C85DAFA7E3C4FF5AC1686DB,
          1, -0x1558B2784057492EDD41CA82E73DB0FF0EBA79060DCC546D58B5CD80499BE1273, 0xB395438DF2232A4CFEA9207E0B5DECA896DADE0C7C6C7DE9CC20916018D99BAE);
    Digit(P, 0x55555555555555555555555555555555555555555555555, 0xB395438DF2232A4CFEA9207E0B5DECA896DADE0C7C6C7DE9CC20916018D99BAE,
          0, 0x7DFA138035ACA589F1A85B3B4D711779CEE9FFDDBBAFB70AC2911FA164BB9494, 0x3675A1FCABA38B2698FB273F0D814C71F6A5C007874F052B540EB02F5B8A3318,
          1, -0x5118DCBC6F0FB044D34B48635435305B4915660386D9B4C828B1EA0811C33789, 0xB5264E7CCF26841633C49E9C3954FF124231DEA5764170B9E6BF7F77E5770E67,
          0, 0x802F30B7E20A414B6938331D590A4E624FB92B94D8C7FF55F5B936C3A0FD4504, 0xD64E0AA8C27B8C84C57DA8FBE7FDEE7425109B4444AC220C3D3112821125D1B5,
          1, -0x4E7CDFB487F06D49FA7CD11B304BFB539D7BA502B09C61C12762CC21B5606D93D, 0x2475DFE8662BBDC597E26FE72EB12D1CFF5AF22B7C5FFC46BCCAFD91631FA864);
    Digit(P, 0x555555555555555555555555555555555555555555555555, 0x2475DFE8662BBDC597E26FE72EB12D1CFF5AF22B7C5FFC46BCCAFD91631FA864,
          0, 0x5315D3FCB00665496019BE5D9E8EB05F8C4A331182DA0B5405634B5358A3CFB, 0xB362A348DE23FFC64D77479B1260805CBB51F95597B51CE65F6D4DFBE38E20FB,
          1, -0x36FE59C71421C0C16D626CA4521D66956D907DA133A9334AB09C7C2A7E92E1CBE, 0x617D49A0EB45228BCA7B5AC60FE390FFC127736A3FB1BFCA918ACB4AEE1A5433,
          0, 0x25202F1CEE9D5106084C1F907B2F7205E57214B780DFF82CD8EF40CFC1A9B63D, 0x93A49096E3253A64252A1027E800BD38A82DF1AAF35AD1C47DF295DF22BE00F6,
          1, -0x2540CD6E002F5289AC0F666128A7F99F46A37EFB65C79FD128FCD5C1AFD40DBD6, 0x6FCA279D527353216236342E4817F9774EAAAC876588A390CA5D402E175A8D8E);
    Digit(P, 0x5555555555555555555555555555555555555555555555555, 0x6FCA279D527353216236342E4817F9774EAAAC876588A390CA5D402E175A8D8E,
          0, 0x30D0EDFCF7E76FE3833036DEA3D84B11072BA0BA5C84E4E2DECF77DC7FD29699, 0x2111B9269C1AA5B63D8E7B8C02C4108F2A55DCA26D6E0499743A4B9C2CCE78AD,
          1, -0x1DE704BA78FAFFED8CC1E8124659BB4A09BB4DA4A89BE301754BB7D342ECC62A, 0xAB92EB590CCC3E8FACF1E6AC57A7B5895606FE66A32948F0870E369E43393757,
          0, 0x72FD9ABA410811042E6F7E50F3DD0C23052E631F055634C7F10EB01C06554534, 0x9E349B3F9756E5F743C28F475AE4AB547BC70D3EFD31AB1DFE87634D66219B05,
          1, -0x2AC62D91D878BB193F1A17711B9A4439120070B3E544AAFBAAF63B5B2C9B3289A, 0x3AB9C079113B590FAD79CEB0340C19D6EAF5B9227F7B86BBCBD6FB6B0322A997);
    Digit(P, 0x55555555555555555555555555555555555555555555555555, 0x3AB9C079113B590FAD79CEB0340C19D6EAF5B9227F7B86BBCBD6FB6B0322A997,
          0, 0xD78B1FE9B7F9F3C241E905386AE71033CF5EDCC0F0DFD3BEA8C7CAADEA51344, 0x47A0EE63FB9AF66F8B9F3FF84A9764238E7D33940B0500B99AD28E44BA733D95,
          1, -0x8C4AA1CC33BBA4EE53A4C05589864C748AB102D922B93B0474609B999CFB231E, 0x16E430A4647F7CB123F3EAEB896529C4D8133A065B0C17C629CF4FFF96CA8D73,
          0, 0x20C03C2EF56FBC547440033D05BC1A0560081E7F420C733256A7D9E2DA0150E, 0x3C55DFFDABBF329AD17D26DF314429313DC72A56D8AAAAD252A840DA6B943C17,
          1, -0x638A909DEC9B30DD602592F96EFED3E05B5BED995D806CF0B3CF7AA94B065104, 0xA9A8574546525993139F6A3002D2E52D9DBC3B2DC20A262EA8D4EC3B5A014945);
    Digit(P, 0x555555555555555555555555555555555555555555555555555, 0xA9A8574546525993139F6A3002D2E52D9DBC3B2DC20A262EA8D4EC3B5A014945,
          0, 0x706FB1EC1F852EE4B5899F87A1255F868E4D9F8EE71496A1574E37C54EA519F4, 0x8AAA6834ABF639B7165E3024C5365BBF33EFBD9C46E8245065C3D7494F9A78CD,
          1, -0x20DC524737460CE96E3FC485B5934C1A1FB3AAB6ED1D1E84076B10D0DBDE0ACBF, 0x4B515E93F2250965D4E6C82FB284DBFF04BE0F4C43D3D29907FCFB0CC20AEDF2,
          0, 0x1628C747AC71EA44CBA991C2DB21ED852ED571B8A66A392E69E09FECC1D23103, 0x7B3CEF612EA70916C04347450A14F019C1B74876378EF0FEB737F35CEF3F0537,
          1, -0x19F4947BB498EDD3AC64C2B8EBE75C0452D7C2EB9BE997B201E6548D7B0D86462, 0x581E5CF17C561569372C2370CA0FD4A964B05D7BD9A4454E3B05AFA3FEC8947);
    Digit(P, 0x5555555555555555555555555555555555555555555555555555, 0x581E5CF17C561569372C2370CA0FD4A964B05D7BD9A4454E3B05AFA3FEC8947,
          0, 0x1E54E37FEFD2C80E9072B827C5DC4BCABF05AC1365A4040FD7109BBEB2201B, 0xEAFD15CC3F73526E7756E677D9953DE5F4BAB148B81C1CF81890D3481C5198BC,
          1, -0x5E5E98A5E60EBAE06E0E374B65C77B35968918F216553E861AC2045618E2487EE, 0xE599262B7C70B944ED9AB20C6882DFB2D58AFEE4B894C81DDE924A9497EEB642,
          0, 0xCDEB59E8724D5A8746D6DE422D3505A7C854B5A634727945FB0A064DDBB38A19, 0xD76FB4279BCE79FA11FC4F1790B8CD30FF29482807D0D3CD4FC9F725B8ABF26D,
          1, -0x4F519B969C5D7922D1E59539EAFD5CD13C188BE863ED3EB4EF5F2EDE42336E6D1, 0x25EC440BE194DF2A093788565A16A1C71D4B12484FAAF6EC936EF31D75274B80);
    Digit(P, 0x55555555555555555555555555555555555555555555555555555, 0x25EC440BE194DF2A093788565A16A1C71D4B12484FAAF6EC936EF31D75274B80,
          0, 0x59E25B8F7334361DC4B95294FCCC498CDC177D4FF8E44622F3975F0570FF87E, 0xFBF1215BBB8BBB19734D30B9700E648B5EC45FCFF17662ECCD341EC55B3798DE,
          1, -0x6C7A319C3F1CB446584EE4A29F608C4CA11A98465C03DB46DF37EA51E45E5CB8D, 0x4FBC4341706134466438EA793BDBEE1FB9E84F5F9FD86582152CE8F0274B8747,
          0, 0x18D5BBF53D245E955D4CEB2A245A9B40B187C11808E7D22E591C3B1C8C20C31D, 0x9F9352B70BA82A00891C31B355DBF3097F78921A9E0CD6C5601CC9AFF61E975E,
          1, -0x2B84A56B451F45F8C198B538DEEF03F1D3F5362AC2BB39D6E5CC4160ACE1648EA, 0x5B8C397E66B3ABEBC483D0BAE0BCD7719CE9D242C22B4586B4AA0C4A1C3B8D5A);
    Digit(P, 0x555555555555555555555555555555555555555555555555555555, 0x5B8C397E66B3ABEBC483D0BAE0BCD7719CE9D242C22B4586B4AA0C4A1C3B8D5A,
          0, 0x20BCFDAECC2D98E2EC348B430CA36C1505C845862AE04C7893F17B540945C03B, 0xEE2F299392417E9A0F92247FBEC3EC703C764D324D7417B0DC30A8C088BAE4CF,
          1, -0x60F4215F6C82E958C7FEEBE3C2C308EDD4CC6CF380B5EB19DA16C10FA998E9BB5, 0x649535F4C5BBCB3C0376CE8AC9669FBE5814B036434514CA81E2898A65A22694,
          0, 0x2784E91F14C8274ABF6DAE0B8F3FF33A762F1F49C883A602EF2D782B79165321, 0x37C1516833FB4260BB8523E2BAD207ADA5A04401C7FC53B4D36349BFBF538681,
          1, -0x550074BE5B6422C87BF637636A777D4FFCD074207BD1216D6109357AB5DE8B74, 0x974879FCFD0E00570A5670931FA8222447AD62CA0C094D263383C170374AF45);
    Digit(P, 0x5555555555555555555555555555555555555555555555555555555, 0x974879FCFD0E00570A5670931FA8222447AD62CA0C094D263383C170374AF45,
          0, 0x5966946D4AF5FD81492F69FF06A6F5FC68158B1B3956742C18181057701C4C, 0x91A322CF35159167BAF1D6949C3F61C23A63F0C0F45AECECFCBFBA5A9F6366A5,
          1, -0x243F775BC832215FB08A49B580F7B2F56D8994366983283C8B2E80E8BF5FDAF66, 0x2BA366816DAD28CBC1684CA76389744BAB62163B67CF4E4AE6ECDBA59F6C4F4B,
          0, 0x7704CBB2CB53B0C1A73B9E78D6218FA679E96AA58AEC588FC744BE18D1B96FA, 0x72436E705FB3D1D81FBC6E2BFC349547F11C8DE77FF70F202FC96FC5B0229013,
          0, 0x3300201F13B30296BCD8BB3012FFE1420930B7383B36DF5931A9ACEAB94298C2, 0xBB86CF6ABF01A27B7E43F2956475FA5F3FBEC7D6E2C9DA500F74691BD4A5DCB);
    Digit(P, 0x55555555555555555555555555555555555555555555555555555554, 0xBB86CF6ABF01A27B7E43F2956475FA5F3FBEC7D6E2C9DA500F74691BD4A5DCB,
          1, -0x3C193961A37F70D713EA81B3737AA6F7A75BB91E04FA3FD5479A9ECB1CA1199, 0x7D2DDF38FBBFCE55224D3EF17607726D8868ED2D6BFB2092734D55B1C7C2FE48,
          1, -0x1AC78CD7931AAFD72A0AC5B9DF3714CE354F15352468D7EB46B2E777D75842262, 0xF5961F14490714017B9526A34EA64DD3F92C2B0FAEE069FC9C54A7E846D41A3E,
          1, -0x6712CCCA4D745532A6B75CF8FA8ECDF83C5BBAB0D7FB494D5243945C931F2DBB0, 0xCE1355708A91A47B67312607D089D77E4FBD9DA1103415FDCEC5DE42B6830434,
          1, -0x48935D8C0679C3AC6EA6D685D8E586AC88C33F7A63E7AFFF6DC6D97D4C2A636FF, 0xB5BE5A3CCF4DFE895DFC425E821D6FD698A2A561331AFF39F820FF2376A472E1);
    Digit(P, 0x55555555555555555555555555555555555555555555555555555554F, 0xB5BE5A3CCF4DFE895DFC425E821D6FD698A2A561331AFF39F820FF2376A472E1,
          1, -0x3872F0FFC6A7FBD5D3375692BE047D6758A030B67A5B6F6B58473344F968EC37C, 0x3796A0484C10A035D566BE4649C11FA672AFFDCEA09DD0DA7258EB50BA53CF7D,
          1, -0x547E7A7B045322C1BEFC97CA33C53AC289B1D6A41A0B6DFBD553B780DA1266E5, 0xAFCFCB447093ADF72BAA8AD13A10010FD32D6B472A33A2782F54CEDDDD339ACC,
          1, -0x34D3043FD73EF088A50F63CEE297D04E1103B707ED6DDEAECFD123881019BED6E, 0xF6580E9DF392A1D43FB276D9946A6237B0B29F5CBF158F6EB738670407BC5D42,
          1, -0x67B5D78AB4ECC73731D7D4D5C1E47440C3BBCF7483F36E7923401DD8C0BB18009, 0x9F80508DC9939B9C01DA002C689EC3EEA544D6857F48B642A2EAEC2B5F373A8B);
    Digit(P, 0x55555555555555555555555555555555555555555555555555555554FF, 0x9F80508DC9939B9C01DA002C689EC3EEA544D6857F48B642A2EAEC2B5F373A8B,
          1, -0x2B7A47EA574B6FFEF4432D4D4CAEDACD12D687BA92A3357C81E9988AFD7891463, 0x17E5A71C2143E97BB1CA361DC60A193373EA68EE1C69F1261668601BD40C3DDE,
          1, -0xF9D7E5027B8019CE150230DB88AC0CAB856F72239A8C6214C92FADCA97DDBDA, 0x3A8BD485328DEEA697753831B807D690148699AE5EC17C39F693F4D854531D6A,
          1, -0x5DB99CB9CBD6A31D07D69A5853D09917C6503013B1E39A1311A78D89D30BD359, 0xB48C45605A4E9E5F88ABE87EBBD80BDB5971CAF728A13E8965A4918505121A1B,
          1, -0x37B56E4F02644E3889A262C923B3F41155CC432F6509C2ED6C0AAD5989D8F7C66, 0xF5FD0943C77815A1DF273012312C2B4597B207CF355A1DF364EF61AD882FC6CB);
    Digit(P, 0x55555555555555555555555555555555555555555555555555555554FFF, 0xF5FD0943C77815A1DF273012312C2B4597B207CF355A1DF364EF61AD882FC6CB,
          1, -0x6769420E154B5A31D5A24EAF16B65D8D29CE7932A67BD69F149608048567E59C8, 0x4F4F77F5A49B33976227F99EE50C168A8FFA90BAB7A66EBF4F42DEA3E96ED8E9,
          1, -0xABFF00F20DE3B6924C2DB9948672952EA63B28643FEFBC13F14F762EB589D322, 0x26F22934DB07CDC6EC6D0D6104BADC04DF4F6DB2F55C1E1265B513BE5ED71EC7,
          1, -0x2979811F5D1CC26835553F023F7E6B3E084E0BBA68B47161A497DE828FCA482E, 0x5D7C648362412C4D2AAAA8DE13D761A3A2B19C15C6AFD1889AA2A37474DD19B,
          1, -0xEEF94E4EE4EA1A993B706BDDD19ED7C858945A52FFA0B667E9AD3545BDD7F1, 0xF058F3F52AFC7967CF450B32EBF98CF69BB1DBBED4E512036FE9DA17AC73B650);
    Digit(P, 0x55555555555555555555555555555555555555555555555555555554FFFF, 0xF058F3F52AFC7967CF450B32EBF98CF69BB1DBBED4E512036FE9DA17AC73B650,
          1, -0x62B905A4E3B7011490EA69265FDDBD4B460A5E9A52760B84FE7A70E42DF5E113F, 0x8812CAA0EEEB165E60DCDFCF57423B46CBE56B792CD2C144C47597ECEA073F91,
          1, -0x1FA4BCCB4CA1039459246202CD97573EFB82601939B24A888D06AC300DCC7D1FF, 0x18478E3FD15047D84981AB49E259E6F313D9A5C36610BA96A7EF6B6B1968C0EA,
          1, -0x101E76B53FD01CD318C801B13C6E3E23FBFE9A7DADF36B266DB5AEB38CE4E2F2, 0xB49738F32422EB870BD9AA016B5FAE098F5F6CA04E8FF2C680CDE0C031FB0932,
          1, -0x37BC309E70C3716009AE6E2E3A727255FEA6FBA19C4B36650CEFF25969825F7A4, 0x39E9A07BAAE0BCA2B9615DCF26AD006520AF049F619E2B9414BC19D0207606C0);
    Digit(P, 0x55555555555555555555555555555555555555555555555555555554FFFFF, 0x39E9A07BAAE0BCA2B9615DCF26AD006520AF049F619E2B9414BC19D0207606C0,
          1, -0x5BB516B826AFA104DC031C7F67B3A0544791A6DCA915E634EB42E094F8A7AE18, 0x166702BF6B1C2C4BFF1916F1D22C74363D5B27F7947C6BCB0E85E8A777D1A668,
          1, -0xDB91174C74C139B0DD00D8C3E526188D607F9A8E3BD9D9F800ADE219612DA64, 0xD4904547EEE03B2B145F5B40C22B38529E4064BF0102E43C077A16D5842F409C,
          1, -0x4D37ADC5C132FD0AC21A425FC3A51B9C9C03B24CF69C0E467EA19E607B1AFC1A3, 0x5C60358476471A3401D3DC7CCA53D985C0340EC0D79F85E7A2BDBA643D21677D,
          0, 0x21554A9F638BEDACA923D3AA2801FD69C39B0F0CCC387A644F86892F840ABBA8, 0x6A8687A9BE6284B51C6215E698EF76DD57EB11FCDB3EA1FA6221B7545705FF31);
    Digit(P, 0x55555555555555555555555555555555555555555555555555555554FFFFFE, 0x6A8687A9BE6284B51C6215E698EF76DD57EB11FCDB3EA1FA6221B7545705FF31,
          1, -0x13649C94C1AC986AC2920E774ABB9ED390C621B4B8C94B2EB2B4A6724ED26A675, 0xFBD99A55C99F3725937F430A90A8831D58BDF8E92E9763871EEF8163116627D4,
          0, 0xF7C46D9B3BD959623DCED73DFCEB24192646F9199F54561D094457FE1D018F02, 0x25671368CFAA7F361A6F332949F179A9FBE195F8B3386259F3028FD49E150E32,
          1, -0x2640B3CA72E1CFF0E553D2007A88A6A238B4253C5D82D1533C4564B169CD50F0, 0xBA9CFF6CC1ECF961A9C6489569A40710DD44C1B461B03FB7773D383DC7F8FB4,
          1, -0x3B83B98205461D22505C457FAEB79E8BFB5A210BFA598DF9DBA52C8CF727588, 0x67FBCDF30A8D2DA5DA09D4BF71BFD4AD881D7771FB61E1CF46F09CB3675B5608);
    Digit(P, 0x55555555555555555555555555555555555555555555555555555554FFFFFEB, 0x67FBCDF30A8D2DA5DA09D4BF71BFD4AD881D7771FB61E1CF46F09CB3675B5608,
          1, -0x127A823D18358187AC5AB99B451702B5FF0E83341101764B94EBBEE5D66F41412, 0xC0D3292ADEFC3FB6E4C65165D7694CE462C499841B3E25E636AC7073184DC58E,
          0, 0x913D6BED31C4B5FE180E8D5C3CDA42365268890D9FF05EB544AFE60FE0990B96, 0xCD6E3C1E14CEC02AFE40DE54596CF176419396EA4EF9BFDF47C0786D37F5123A,
          1, -0x481F4223F450DD72296A3C690EE19BC5970BBB6687EC7028745EFA49618907A84, 0x851695D49A83F8EF919BB86153CBCB16630FB68AED0A766A3EC693D68E6AFA40,
          0, 0x453079AD00C8DBC59E170C2A32C63E4CE3F557593A5EEA99C02DBDBBF22D948E, 0x7AE96A2B657C07106E64479EAC3434E99CF0497512F58995C1396C28719501EE);
  }

  /** -7 is no cube modulo P. */
  lemma NoCube()
    requires P > 0
    ensures !Zero(Pow(-7, 0x55555555555555555555555555555555555555555555555555555554FFFFFEBA) - 1, P)
  {
    Power4();
    hide Pow;
    if Zero(Pow(-7, 0x55555555555555555555555555555555555555555555555555555554FFFFFEBA) - 1, P) {
      hide Zero;
      ZeroSum(Pow(-7, 0x55555555555555555555555555555555555555555555555555555554FFFFFEBA) - 1, Pow(-7, 0x55555555555555555555555555555555555555555555555555555554FFFFFEBA) - 0x7AE96A2B657C07106E64479EAC3434E99CF0497512F58995C1396C28719501EE, P);
      SmallNotZero(0x7AE96A2B657C07106E64479EAC3434E99CF0497512F58995C1396C28719501EE - 1, P);
    }
  }

  /** No point of secp256k1 has y = 0, and point_add adds by chord and tangent without leaving the curve. */
  lemma Secp256k1Closed()
    requires IsPrime(P)
    ensures NoFlatPoint(P) && Closed(P) && Geometric(P)
  {
    hide IsPrime, Pow, Zero, NoFlatPoint, Closed, Geometric;
    NoCube();
    ClosedByTest(P, 0x55555555555555555555555555555555555555555555555555555554FFFFFEBA);
    GeometricWithoutFlat(P);
  }
}
